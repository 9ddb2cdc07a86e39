/** Which streams can be restored at all, whoever wrote them: a restore accepts nothing but the
    snapshot of the store it leads to, and that store keeps the invariants that runs keep. */
module Streams {
  import opened Facts
  import opened Planner
  import opened Localization
  import opened Identities
  import opened History
  import opened Store
  import opened Soundness
  import opened Constraints
  import opened Derived
  import opened Audit
  import opened Doctor
  import opened Snapshot
  import opened Retained
  import opened Recovery

  // ----- what reading keeps -----

  /** The ids of events are registered, after genesis or as genesis. */
  ghost predicate EventsNamed(eventTx: map<Uuid, int>, ids: map<int, Identity>) {
    forall uuid :: uuid in eventTx ==> GENESIS_TX <= eventTx[uuid] && IsSelector(ids, eventTx[uuid], Eid(uuid))
  }

  /** No identity, nor the transaction that created it, is as late as `next`. */
  ghost predicate Earlier(ids: map<int, Identity>, next: int) {
    forall id :: id in ids ==> id < next && ids[id].created < next
  }

  /** The state after receipt lines that the store in construction would list again. */
  ghost predicate Reading(p: Db, st: Restoring, lines: seq<ReceiptLine>) {
    && Finds(st.identities, st.db.ids) && EventsNamed(st.eventTx, st.db.ids) && Earlier(st.db.ids, st.next)
    && st.db.table == p.table && st.next > GENESIS_TX
    && |st.db.events| == |lines| + 1 && (forall ev :: ev in st.db.events ==> ev.tx < st.next)
    && ReceiptLines(st.db, |lines|) == lines
  }

  lemma FindsAdded(identities: map<Selector, int>, ids: map<int, Identity>, id: int, identity: Identity)
    requires Finds(identities, ids) && identity.selector !in identities && id !in ids
    ensures Finds(identities[identity.selector := id], ids[id := identity])
  {
  }

  lemma {:induction false} ReserveFound(identities: map<Selector, int>, ids: map<int, Identity>, next: int, created: seq<Selector>, tx: int)
    requires Finds(identities, ids) && (forall id :: id in ids ==> id < next) && Reserve(identities, next, created).Some?
    ensures Finds(Reserve(identities, next, created).value, ids + New(next, created, tx))
  {
    hide Finds;
    if created == [] {
      assert ids + New(next, created, tx) == ids;
    } else {
      var n := |created| - 1;
      var before := ids + New(next, created[..n], tx);
      ReserveFound(identities, ids, next, created[..n], tx);
      FindsAdded(Reserve(identities, next, created[..n]).value, before, next + n, Identity(created[n], tx));
      assert ids + New(next, created, tx) == before[next + n := Identity(created[n], tx)];
    }
  }

  function New(next: int, created: seq<Selector>, tx: int): map<int, Identity> {
    map id | next <= id < next + |created| :: NewOne(next, created, tx, id)
  }

  function NewOne(next: int, created: seq<Selector>, tx: int, id: int): Identity {
    Identity(if next <= id < next + |created| then created[id - next] else Name(""), tx)
  }

  lemma {:induction false} CreatedSame(ids: map<int, Identity>, ids': map<int, Identity>, tx: int, from: int)
    requires forall id :: id < tx ==> (id in ids <==> id in ids') && (id in ids ==> ids'[id] == ids[id])
    ensures CreatedSelectors(ids', tx, from) == CreatedSelectors(ids, tx, from)
    decreases tx - from
  {
    if from < tx { CreatedSame(ids, ids', tx, from + 1); }
  }

  /** Later identities do not change the line of an event. */
  lemma LineSame(ids: map<int, Identity>, more: map<int, Identity>, next: int, ev: Event)
    requires (forall id :: id in more ==> id >= next) && ev.tx < next
    ensures ReceiptOf(ids + more, ev) == ReceiptOf(ids, ev)
  {
    CreatedSame(ids, ids + more, ev.tx, 1);
  }

  /** The line of an event that was just read is the line it was read from. */
  lemma LineReturns(ids: map<int, Identity>, next: int, line: ReceiptLine)
    requires Earlier(ids, next) && next > GENESIS_TX
    ensures var tx := next + |line.created|;
      ReceiptOf(ids + RestoredIds(next, line.created, line.uuid), Event(tx, line.uuid, line.payload, line.operation, line.hash)) == line
  {
    var tx, more := next + |line.created|, ids + RestoredIds(next, line.created, line.uuid);
    forall i | 0 <= i < |line.created| ensures SelectorOf(more, next + i) == line.created[i] {
      RestoredAt(ids, next, line, i);
    }
    SkipOthers(more, tx, 1, next);
    AllCreated(more, tx, next);
    hide RestoredIds;
    assert CreatedBy(more, next, tx) == line.created;
  }

  lemma RestoredAt(ids: map<int, Identity>, next: int, line: ReceiptLine, i: nat)
    requires i < |line.created|
    ensures SelectorOf(ids + RestoredIds(next, line.created, line.uuid), next + i) == line.created[i]
  {
    assert RestoredIds(next, line.created, line.uuid)[next + i] == RestoredId(next, line.created, line.uuid, next + i);
  }

  lemma LineRead(p: Db, st: Restoring, lines: seq<ReceiptLine>, line: ReceiptLine)
    requires Reading(p, st, lines) && RestoreReceipt(st, line).Ok?
    ensures Reading(p, RestoreReceipt(st, line).value, lines + [line])
  {
    hide Finds, EventsNamed, Earlier, Reserve, ReceiptOf;
    var st', tx, more := RestoreReceipt(st, line).value, st.next + |line.created|, RestoredIds(st.next, line.created, line.uuid);
    LineFound(st, line);
    LineReturns(st.db.ids, st.next, line);
    var events := st'.db.events;
    forall i | 0 <= i < |lines| ensures ReceiptOf(st'.db.ids, events[i + 1]) == lines[i] {
      assert events[i + 1] == st.db.events[i + 1] && ReceiptLines(st.db, |lines|)[i] == lines[i];
      LineSame(st.db.ids, more, st.next, st.db.events[i + 1]);
    }
    assert events[|lines| + 1] == Event(tx, line.uuid, line.payload, line.operation, line.hash);
    assert ReceiptLines(st'.db, |lines| + 1) == lines + [line];
  }

  /** A line adds its identities and its event to those that can be found. */
  lemma LineFound(st: Restoring, line: ReceiptLine)
    requires RestoreReceipt(st, line).Ok? && st.next > GENESIS_TX
    requires Finds(st.identities, st.db.ids) && EventsNamed(st.eventTx, st.db.ids) && Earlier(st.db.ids, st.next)
    ensures var st' := RestoreReceipt(st, line).value;
      Finds(st'.identities, st'.db.ids) && EventsNamed(st'.eventTx, st'.db.ids) && Earlier(st'.db.ids, st'.next)
  {
    hide Finds, Reserve;
    var tx := st.next + |line.created|;
    var known, own := st.db.ids + New(st.next, line.created, tx), Identity(Eid(line.uuid), tx);
    ReserveFound(st.identities, st.db.ids, st.next, line.created, tx);
    FindsAdded(Reserve(st.identities, st.next, line.created).value, known, tx, own);
    NewAre(st.db.ids, st.next, line);
  }

  lemma NewAre(ids: map<int, Identity>, next: int, line: ReceiptLine)
    ensures var tx := next + |line.created|;
      ids + RestoredIds(next, line.created, line.uuid) == (ids + New(next, line.created, tx))[tx := Identity(Eid(line.uuid), tx)]
  {
  }

  lemma {:induction false} LinesRead(p: Db, start: Restoring, lines: seq<ReceiptLine>)
    requires Starts(p, start) && RestoreReceipts(start, lines).Ok?
    ensures Reading(p, RestoreReceipts(start, lines).value, lines)
  {
    hide Starts, Reading, RestoreReceipt;
    if lines == [] {
      NothingRead(p, start);
    } else {
      var n := |lines| - 1;
      LinesRead(p, start, lines[..n]);
      LineRead(p, RestoreReceipts(start, lines[..n]).value, lines[..n], lines[n]);
      assert lines[..n] + [lines[n]] == lines;
    }
  }

  lemma NothingRead(p: Db, start: Restoring)
    requires Starts(p, start)
    ensures Reading(p, start, [])
  {
    SoundHas(p);
    TxsBounded(p);
    forall uuid | uuid in start.eventTx ensures GENESIS_TX <= start.eventTx[uuid] && IsSelector(p.ids, start.eventTx[uuid], Eid(uuid)) {
      var ev :| ev in p.events && ev.uuid == uuid;
    }
    assert ReceiptLines(p, 0) == [];
  }

  // ----- facts -----

  /** The state after fact lines that the store in construction would list again. */
  ghost predicate Adding(p: Db, was: Restoring, st: Restoring, lines: seq<FactLine>) {
    && st == was.(db := st.db) && st.db.ids == was.db.ids && st.db.events == was.db.events
    && |p.table| <= |st.db.table| && st.db.table[..|p.table|] == p.table
    && FactLines(st.db.ids, st.db.table[|p.table|..]) == lines
    && forall i :: |p.table| <= i < |st.db.table| ==> st.db.table[i].tx > GENESIS_TX
  }

  /** A resolved tuple is told as it was. */
  lemma TupleTold(identities: map<Selector, int>, ids: map<int, Identity>, t: Tuple)
    requires Finds(identities, ids) && ResolveTuple(identities, t).Some?
    ensures ToTuple(ids, ResolveTuple(identities, t).value) == t
  {
  }

  lemma FactRead(p: Db, was: Restoring, st: Restoring, lines: seq<FactLine>, line: FactLine)
    requires Finds(was.identities, was.db.ids) && EventsNamed(was.eventTx, was.db.ids)
    requires Adding(p, was, st, lines) && RestoreFact(st, line).Ok?
    ensures Adding(p, was, RestoreFact(st, line).value, lines + [line])
  {
    hide Finds, ResolveTuple, ToTuple, LiveKey, IsText, IsIndirect;
    TupleTold(was.identities, was.db.ids, line.tuple);
    var table, table' := st.db.table, RestoreFact(st, line).value.db.table;
    var row := table'[|table|];
    assert table' == table + [row];
    assert FactOf(st.db.ids, row) == line;
    assert table'[|p.table|..] == table[|p.table|..] + [row];
  }

  lemma {:induction false} FactsRead(p: Db, was: Restoring, lines: seq<FactLine>)
    requires Finds(was.identities, was.db.ids) && EventsNamed(was.eventTx, was.db.ids) && was.db.table == p.table
    requires RestoreFacts(was, lines).Ok?
    ensures Adding(p, was, RestoreFacts(was, lines).value, lines)
  {
    hide Finds, EventsNamed, RestoreFact;
    if lines == [] {
      assert p.table[..|p.table|] == p.table;
    } else {
      var n := |lines| - 1;
      FactsRead(p, was, lines[..n]);
      FactRead(p, was, RestoreFacts(was, lines[..n]).value, lines[..n], lines[n]);
      assert lines[..n] + [lines[n]] == lines;
    }
  }

  lemma UserRowsAre(p: Db, rows: seq<Fact>)
    requires Pristine(p) && forall f :: f in rows ==> f.tx > GENESIS_TX
    ensures UserRows(p.table + rows) == rows
  {
    var keep := set f | f in p.table + rows && f.tx > GENESIS_TX;
    forall f | f in p.table ensures f !in keep { SystemRow(p, f); }
    KeepConcat(p.table, rows, keep);
    KeepNone(p.table, keep);
    KeepAll(rows, keep);
  }

  /** A restore accepts only the snapshot of the store it leads to. */
  lemma AcceptedIsSnapshot(p: Db, start: Restoring, stream: Stream)
    requires Starts(p, start) && Rebuild(start, stream).Ok?
    ensures Rebuild(start, stream).value.events != [] && TakeSnapshot(Rebuild(start, stream).value) == stream
  {
    hide Starts, RestoreReceipts, RestoreFacts, Finds, EventsNamed, TakeSnapshot;
    var was := RestoreReceipts(start, stream.receipts).value;
    StartsPristine(p, start);
    LinesRead(p, start, stream.receipts);
    FactsRead(p, was, stream.facts);
    ReadIsSnapshot(p, was, RestoreFacts(was, stream.facts).value, stream);
  }

  lemma ReadIsSnapshot(p: Db, was: Restoring, st: Restoring, stream: Stream)
    requires Pristine(p) && Reading(p, was, stream.receipts) && Adding(p, was, st, stream.facts)
    requires stream.basis == EventAt(st.db.ids, Basis(st.db.events))
    ensures st.db.events != [] && TakeSnapshot(st.db.(next := st.next)) == stream
  {
    hide Pristine, Finds, EventsNamed, Earlier, UserRows, ReceiptLines, FactLines;
    var db := st.db.(next := st.next);
    var rows := db.table[|p.table|..];
    assert db.table == p.table + rows;
    forall f | f in rows ensures f.tx > GENESIS_TX {
      var i :| 0 <= i < |rows| && rows[i] == f;
      assert db.table[|p.table| + i] == f;
    }
    UserRowsAre(p, rows);
    SameLines(was.db, db, |stream.receipts|);
  }

  lemma SameLines(db: Db, db': Db, n: nat)
    requires db'.ids == db.ids && db'.events == db.events && n < |db.events|
    ensures ReceiptLines(db', n) == ReceiptLines(db, n)
  {
  }

  /** Different streams never restore to the same store. */
  lemma StreamsDiffer(p: Db, start: Restoring, stream: Stream, other: Stream)
    requires Starts(p, start) && Rebuild(start, stream).Ok? && Rebuild(start, other) == Rebuild(start, stream)
    ensures stream == other
  {
    AcceptedIsSnapshot(p, start, stream);
    AcceptedIsSnapshot(p, start, other);
  }

  // ----- what is accepted is sound -----

  /** The store in construction, as it would be if reading ended here. */
  function Ended(st: Restoring): Db {
    st.db.(next := st.next)
  }

  /** Events and identities are in order, and no identity is younger than its transaction. */
  ghost predicate Built(st: Restoring) {
    && Timeline(Ended(st)) && Registry(Ended(st)) && Finds(st.identities, st.db.ids)
    && EventsNamed(st.eventTx, st.db.ids) && Earlier(st.db.ids, st.next)
    && (forall id :: id in st.db.ids ==> id <= st.db.ids[id].created)
    && (forall uuid :: uuid in st.eventTx ==> st.eventTx[uuid] in Txs(st.db.events))
  }

  lemma FoundDistinct(identities: map<Selector, int>, ids: map<int, Identity>)
    requires Finds(identities, ids)
    ensures SelectorsDistinct(ids)
  {
  }

  lemma LineGaps(db: Db, line: ReceiptLine)
    requires Timeline(db) && GapsFilled(db.events, db.ids)
    ensures var tx := db.next + |line.created|;
      GapsFilled(db.events + [Event(tx, line.uuid, line.payload, line.operation, line.hash)], db.ids + RestoredIds(db.next, line.created, line.uuid))
  {
    var tx := db.next + |line.created|;
    var events := db.events + [Event(tx, line.uuid, line.payload, line.operation, line.hash)];
    var ids := db.ids + RestoredIds(db.next, line.created, line.uuid);
    TxsBounded(db);
    forall i, j | 0 <= i < j < |events| && j == i + 1 ensures GapFilled(events[i].tx, events[j].tx, ids) {
      if j < |db.events| {
        assert GapFilled(db.events[i].tx, db.events[j].tx, db.ids);
        assert db.events[j] in db.events;
      }
    }
  }

  lemma LineRegistry(db: Db, line: ReceiptLine, db': Db)
    requires Timeline(db) && Registry(db) && SelectorsDistinct(db'.ids) && (line.payload.Some? ==> line.payload.value == line.hash)
    requires var tx := db.next + |line.created|;
      && db'.events == db.events + [Event(tx, line.uuid, line.payload, line.operation, line.hash)] && db'.next == tx + 1
      && db'.ids == db.ids + RestoredIds(db.next, line.created, line.uuid)
    ensures Timeline(db') && Registry(db') && Txs(db'.events) == Txs(db.events) + {db.next + |line.created|}
  {
    hide SelectorsDistinct, GapsFilled;
    var ev := Event(db.next + |line.created|, line.uuid, line.payload, line.operation, line.hash);
    TxsBounded(db);
    LineGaps(db, line);
    TimelineGrows(db.events, ev);
    forall e | e in db'.events ensures e.tx in db'.ids && db'.ids[e.tx].selector == Eid(e.uuid) && Sealed(e) {
      if e != ev { assert e in db.events && e.tx in Txs(db.events); }
    }
  }

  lemma LineBuilt(st: Restoring, line: ReceiptLine)
    requires Built(st) && RestoreReceipt(st, line).Ok?
    ensures Built(RestoreReceipt(st, line).value)
  {
    hide Finds, Reserve, EventsNamed, Earlier, Timeline, Registry, SelectorsDistinct;
    var st' := RestoreReceipt(st, line).value;
    NextLate(Ended(st));
    LineFound(st, line);
    FoundDistinct(st'.identities, st'.db.ids);
    LineRegistry(Ended(st), line, Ended(st'));
  }

  lemma NextLate(db: Db)
    requires Timeline(db)
    ensures db.next > GENESIS_TX
  {
    TxsBounded(db);
  }

  lemma {:induction false} LinesBuilt(p: Db, start: Restoring, lines: seq<ReceiptLine>)
    requires Starts(p, start) && RestoreReceipts(start, lines).Ok?
    ensures Built(RestoreReceipts(start, lines).value)
  {
    hide Starts, Built, RestoreReceipt;
    if lines == [] {
      StartBuilt(p, start);
    } else {
      LinesBuilt(p, start, lines[..|lines| - 1]);
      LineBuilt(RestoreReceipts(start, lines[..|lines| - 1]).value, lines[|lines| - 1]);
    }
  }

  lemma StartBuilt(p: Db, start: Restoring)
    requires Starts(p, start)
    ensures Built(start)
  {
    hide Reading;
    NothingRead(p, start);
    assert Reading(p, start, []) ==> EventsNamed(start.eventTx, p.ids) && Earlier(p.ids, p.next) by { ReadingHas(p, start, []); }
    SoundHas(p);
    TxsBounded(p);
    assert Ended(start) == p;
    forall uuid | uuid in start.eventTx ensures start.eventTx[uuid] in Txs(p.events) {
      var ev :| ev in p.events && ev.uuid == uuid;
    }
  }

  lemma ReadingHas(p: Db, st: Restoring, lines: seq<ReceiptLine>)
    requires Reading(p, st, lines)
    ensures EventsNamed(st.eventTx, st.db.ids) && Earlier(st.db.ids, st.next)
  {
  }

  /** Rows in id order, one live row per fact, and receipts of events that are there. */
  ghost predicate Stacked(st: Restoring) {
    && ById(st.db.table) && LiveRows(LiveOf(st.db.table)) && InStep(st.db)
    && forall f :: f in st.db.table ==>
         f.id < st.db.nextRow && f.tx in Txs(st.db.events) && (f.rx.Some? ==> f.rx.value in Txs(st.db.events) && f.tx < f.rx.value)
  }

  /** The row that a fact line adds. */
  lemma FactRow(st: Restoring, line: FactLine) returns (row: Fact)
    requires Built(st) && RestoreFact(st, line).Ok?
    ensures row.id == st.db.nextRow && row.tx in Txs(st.db.events) && !LiveKey(st.db.table, row.key)
    ensures row.rx.Some? ==> row.rx.value in Txs(st.db.events) && row.tx < row.rx.value
    ensures RestoreFact(st, line).value == st.(db := AddRow(st.db, row.key, row.tx, row.rx))
    ensures AddRow(st.db, row.key, row.tx, row.rx).table == st.db.table + [row]
  {
    hide Finds, EventsNamed, Earlier, Timeline, Registry, ResolveTuple, LiveKey;
    var db := RestoreFact(st, line).value.db;
    row := db.table[|st.db.table|];
  }

  lemma FactStacked(st: Restoring, line: FactLine)
    requires Built(st) && Stacked(st) && RestoreFact(st, line).Ok?
    ensures Built(RestoreFact(st, line).value) && Stacked(RestoreFact(st, line).value)
  {
    hide Built, RestoreFact, ById, LiveRows, InStep, LiveOf, LiveKey;
    var st', table := RestoreFact(st, line).value, st.db.table;
    var row := FactRow(st, line);
    AddRowInStep(st.db, row.key, row.tx, row.rx);
    LiveConcat(table, [row]);
    LiveOne(row);
    ByIdOnTop(table, row);
    LiveOnTop(table, row);
    EndedSame(st, st');
  }

  lemma EndedSame(st: Restoring, st': Restoring)
    requires Built(st) && st' == st.(db := st'.db) && st'.db.ids == st.db.ids && st'.db.events == st.db.events
    ensures Built(st')
  {
    hide Finds, EventsNamed, Earlier, GapsFilled, SelectorsDistinct;
  }

  lemma ByIdOnTop(table: seq<Fact>, row: Fact)
    requires ById(table) && forall f :: f in table ==> f.id < row.id
    ensures ById(table + [row])
  {
    forall i, j | 0 <= i < j < |table + [row]| ensures (table + [row])[i].id < (table + [row])[j].id {
      assert table[i] in table;
    }
  }

  lemma LiveOnTop(table: seq<Fact>, row: Fact)
    requires LiveRows(LiveOf(table)) && (forall f :: f in table ==> f.id < row.id) && !LiveKey(table, row.key)
    ensures LiveRows(LiveOf(table) + if row.rx.None? then [row] else [])
  {
    var live := LiveOf(table);
    assert forall f :: f in live ==> f in table && f.rx.None?;
    if row.rx.None? {
      ByIdOnTop(live, row);
      assert forall f :: f in live + [row] <==> f in live || f == row;
    } else {
      assert live + [] == live;
    }
  }

  lemma {:induction false} FactsStacked(st: Restoring, lines: seq<FactLine>)
    requires Built(st) && Stacked(st) && RestoreFacts(st, lines).Ok?
    ensures Built(RestoreFacts(st, lines).value) && Stacked(RestoreFacts(st, lines).value)
  {
    hide Built, Stacked, RestoreFact;
    if lines != [] {
      FactsStacked(st, lines[..|lines| - 1]);
      FactStacked(RestoreFacts(st, lines[..|lines| - 1]).value, lines[|lines| - 1]);
    }
  }

  lemma StartStacked(p: Db, start: Restoring, lines: seq<ReceiptLine>)
    requires Starts(p, start) && RestoreReceipts(start, lines).Ok?
    ensures Stacked(RestoreReceipts(start, lines).value)
  {
    LinesSpare(start, lines);
    LinesOnTop(start, lines);
    SoundHas(p);
    forall f | f in p.table ensures RowOk(p, f) {
    }
  }

  lemma {:induction false} LinesSpare(start: Restoring, lines: seq<ReceiptLine>)
    requires RestoreReceipts(start, lines).Ok?
    ensures var st := RestoreReceipts(start, lines).value;
      st.db == start.db.(ids := st.db.ids, events := st.db.events)
  {
    if lines != [] { LinesSpare(start, lines[..|lines| - 1]); }
  }

  lemma {:induction false} LinesOnTop(start: Restoring, lines: seq<ReceiptLine>)
    requires RestoreReceipts(start, lines).Ok?
    ensures forall tx :: tx in Txs(start.db.events) ==> tx in Txs(RestoreReceipts(start, lines).value.db.events)
  {
    if lines != [] {
      LinesOnTop(start, lines[..|lines| - 1]);
      var before, after := RestoreReceipts(start, lines[..|lines| - 1]).value.db.events, RestoreReceipts(start, lines).value.db.events;
      assert forall ev :: ev in before ==> ev in after;
    }
  }

  /** Whatever stream is accepted, the store it leads to has the rows, the timeline and the registry
      that every run keeps, respects the schema and the derived tables, and accounts for all that
      was erased; and the stream is its snapshot. */
  lemma AcceptedIsSound(schema: Schema, p: Db, start: Restoring, stream: Stream)
    requires Starts(p, start) && Restore(schema, start, stream).Ok?
    ensures var db := Restore(schema, start, stream).value;
      && Rows(db) && Timeline(db) && Registry(db) && InStep(db)
      && OneValue(schema, Keys(LiveOf(db.table))) && OneOwner(schema, Keys(LiveOf(db.table)))
      && Accounted(db.events) && Honest(db.events)
      && TakeSnapshot(db) == stream
  {
    hide Built, Stacked, Starts, RestoreReceipts, RestoreFacts, Accounted, Honest, InStep, Lawful, Reproduced, MarkersFound;
    var was := RestoreReceipts(start, stream.receipts).value;
    var st := RestoreFacts(was, stream.facts).value;
    AcceptedIsSnapshot(p, start, stream);
    LinesBuilt(p, start, stream.receipts);
    StartStacked(p, start, stream.receipts);
    FactsStacked(was, stream.facts);
    StackedRows(st);
    LawfulExactly(schema, LiveOf(st.db.table));
  }

  lemma StackedRows(st: Restoring)
    requires Built(st) && Stacked(st)
    ensures Timeline(Ended(st)) && Registry(Ended(st)) && InStep(Ended(st)) && LiveRows(LiveOf(st.db.table))
    ensures Formed(Ended(st)) ==> Rows(Ended(st))
  {
    hide Timeline, Registry, Finds, EventsNamed, Earlier;
    if Formed(Ended(st)) {
      forall f | f in st.db.table ensures RowOk(Ended(st), f) {
        assert FactFits(st.db.ids, Txs(st.db.events), f);
      }
    }
  }
}
