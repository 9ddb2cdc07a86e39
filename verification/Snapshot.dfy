/** Snapshot and restore: a snapshot lists the receipts and then the facts in portable form; a
    restore replays them, line by line, into a pristine store.  This module proves that the
    restore of a snapshot rebuilds the store. */
module Snapshot {
  import opened Facts
  import opened Planner
  import opened Localization
  import opened Identities
  import opened History
  import opened Store
  import opened Soundness
  import opened Derived

  datatype ReceiptLine = ReceiptLine(uuid: Uuid, payload: Option<Payload>, operation: Option<Operation>, hash: Payload, created: seq<Selector>)

  datatype FactLine = FactLine(tuple: Tuple, asserted: Uuid, retracted: Option<Uuid>)

  datatype Stream = Stream(basis: Uuid, receipts: seq<ReceiptLine>, facts: seq<FactLine>)

  // ----- taking a snapshot -----

  function EventAt(ids: map<int, Identity>, tx: int): Uuid {
    if tx in ids && ids[tx].selector.Eid? then ids[tx].selector.uuid else Given(0)
  }

  /** The identities a transaction created besides its own, in id order from `from` on. */
  function CreatedSelectors(ids: map<int, Identity>, tx: int, from: int): seq<Selector>
    decreases tx - from
  {
    if from >= tx then []
    else (if from in ids && ids[from].created == tx then [ids[from].selector] else []) + CreatedSelectors(ids, tx, from + 1)
  }

  function ReceiptOf(ids: map<int, Identity>, ev: Event): ReceiptLine {
    ReceiptLine(EventAt(ids, ev.tx), ev.payload, ev.operation, ev.hash, CreatedSelectors(ids, ev.tx, 1))
  }

  /** The receipts of the first n events after genesis. */
  function ReceiptLines(db: Db, n: nat): seq<ReceiptLine>
    requires n < |db.events|
  {
    seq(n, i requires 0 <= i < n => ReceiptOf(db.ids, db.events[i + 1]))
  }

  function FactOf(ids: map<int, Identity>, f: Fact): FactLine {
    FactLine(ToTuple(ids, f.key), EventAt(ids, f.tx), if f.rx.Some? then Some(EventAt(ids, f.rx.value)) else None)
  }

  function FactLines(ids: map<int, Identity>, rows: seq<Fact>): seq<FactLine> {
    seq(|rows|, i requires 0 <= i < |rows| => FactOf(ids, rows[i]))
  }

  /** The rows of user transactions. */
  function UserRows(table: seq<Fact>): seq<Fact> {
    Keep(table, set f | f in table && f.tx > GENESIS_TX)
  }

  function TakeSnapshot(db: Db): Stream
    requires db.events != []
  {
    Stream(EventAt(db.ids, Basis(db.events)), ReceiptLines(db, |db.events| - 1), FactLines(db.ids, UserRows(db.table)))
  }

  // ----- restoring -----

  /** The restore's state: the next id, the identities by selector, the transactions by event,
      and the store under construction. */
  datatype Restoring = Restoring(next: int, identities: map<Selector, int>, eventTx: map<Uuid, int>, db: Db)

  /** Gives the selectors the next ids; none may be known already. */
  function Reserve(identities: map<Selector, int>, next: int, created: seq<Selector>): Option<map<Selector, int>> {
    if created == [] then Some(identities)
    else
      var n := |created| - 1;
      var before := Reserve(identities, next, created[..n]);
      if before.None? || created[n] in before.value then None
      else Some(before.value[created[n] := next + n])
  }

  function RestoredId(next: int, created: seq<Selector>, uuid: Uuid, id: int): Identity {
    Identity(if next <= id < next + |created| then created[id - next] else Eid(uuid), next + |created|)
  }

  function RestoredIds(next: int, created: seq<Selector>, uuid: Uuid): map<int, Identity> {
    map id | next <= id <= next + |created| :: RestoredId(next, created, uuid, id)
  }

  function PayloadCreated(payload: Payload): seq<Selector> {
    match payload
    case Changes(_, created, _, _) => created
    case Redaction(_, _) => []
  }

  function RestoreReceipt(st: Restoring, line: ReceiptLine): Result<Restoring> {
    if line.uuid in st.eventTx then Err(Conflict)
    else if line.payload.Some? && (line.payload.value != line.hash || PayloadCreated(line.payload.value) != line.created) then Err(Conflict)
    else
      var identities := Reserve(st.identities, st.next, line.created);
      if identities.None? || Eid(line.uuid) in identities.value then Err(Conflict)
      else
        var tx := st.next + |line.created|;
        Ok(Restoring(tx + 1, identities.value[Eid(line.uuid) := tx], st.eventTx[line.uuid := tx],
                     st.db.(ids := st.db.ids + RestoredIds(st.next, line.created, line.uuid),
                            events := st.db.events + [Event(tx, line.uuid, line.payload, line.operation, line.hash)])))
  }

  function RestoreReceipts(st: Restoring, lines: seq<ReceiptLine>): Result<Restoring> {
    if lines == [] then Ok(st)
    else
      match RestoreReceipts(st, lines[..|lines| - 1])
      case Err(e) => Err(e)
      case Ok(before) => RestoreReceipt(before, lines[|lines| - 1])
  }

  function ResolveValue(identities: map<Selector, int>, v: PortableValue): Option<Value> {
    match v
    case Plain(value) => if value.tag == TAG_REF then None else Some(value)
    case Reference(target) => if target in identities then Some(Value(TAG_REF, identities[target])) else None
  }

  function ResolveTuple(identities: map<Selector, int>, t: Tuple): Option<Triple> {
    var v := ResolveValue(identities, t.v);
    if t.e !in identities || t.a !in identities || v.None? then None
    else Some(Triple(identities[t.e], identities[t.a], v.value))
  }

  predicate LiveKey(table: seq<Fact>, key: Triple) {
    exists f :: f in table && f.rx.None? && f.key == key
  }

  /** Adds a row with its derived rows; a retracted text row leaves the full-text index again. */
  function AddRow(db: Db, key: Triple, tx: int, rx: Option<int>): Db {
    db.(table := db.table + [Fact(db.nextRow, key, tx, rx)], nextRow := db.nextRow + 1,
        fts := db.fts + (if IsText(key.v) && rx.None? then {TextRow(db.nextRow, key.v)} else {}),
        blobs := db.blobs + (if IsIndirect(key.v) then {key.v.cell} else {}))
  }

  function RestoreFact(st: Restoring, line: FactLine): Result<Restoring> {
    var key := ResolveTuple(st.identities, line.tuple);
    if key.None? || line.asserted !in st.eventTx || st.eventTx[line.asserted] == GENESIS_TX then Err(NotFound)
    else
      var tx := st.eventTx[line.asserted];
      if LiveKey(st.db.table, key.value) then Err(Conflict)
      else if line.retracted.None? then Ok(st.(db := AddRow(st.db, key.value, tx, None)))
      else if line.retracted.value !in st.eventTx || st.eventTx[line.retracted.value] <= tx then Err(Conflict)
      else Ok(st.(db := AddRow(st.db, key.value, tx, Some(st.eventTx[line.retracted.value]))))
  }

  function RestoreFacts(st: Restoring, lines: seq<FactLine>): Result<Restoring> {
    if lines == [] then Ok(st)
    else
      match RestoreFacts(st, lines[..|lines| - 1])
      case Err(e) => Err(e)
      case Ok(before) => RestoreFact(before, lines[|lines| - 1])
  }

  /** Rebuilds a stream's store from the state a pristine store starts it in. */
  function Rebuild(start: Restoring, stream: Stream): Result<Db> {
    match RestoreReceipts(start, stream.receipts)
    case Err(e) => Err(e)
    case Ok(receipts) =>
      match RestoreFacts(receipts, stream.facts)
      case Err(e) => Err(e)
      case Ok(st) =>
        if stream.basis != EventAt(st.db.ids, Basis(st.db.events)) then Err(Conflict)
        else Ok(st.db.(next := st.next))
  }

  // ----- what a restore starts from -----

  /** The map finds exactly the identities by their selectors. */
  ghost predicate Finds(identities: map<Selector, int>, ids: map<int, Identity>) {
    && (forall id :: id in ids ==> ids[id].selector in identities && identities[ids[id].selector] == id)
    && (forall s :: s in identities ==> identities[s] in ids && ids[identities[s]].selector == s)
  }

  /** The map finds exactly the events. */
  ghost predicate FindsEvents(eventTx: map<Uuid, int>, events: seq<Event>) {
    && (forall ev :: ev in events ==> ev.uuid in eventTx && eventTx[ev.uuid] == ev.tx)
    && (forall uuid :: uuid in eventTx ==> exists ev :: ev in events && ev.uuid == uuid)
  }

  /** A store that holds the genesis transaction only. */
  ghost predicate Pristine(p: Db) {
    && Sound(p) && |p.events| == 1 && InStep(p)
    && (forall f :: f in p.table ==> forall id :: id in Mentions(f.key) ==> id <= GENESIS_TX)
    && (forall id :: id in p.ids ==> p.ids[id].created == GENESIS_TX)
    && p.events[0].payload.Some? && GenesisRecord(p.ids, p.events[0].payload.value)
    && p.events[0].payload.value.at == OriginTime(TimeKeys(p.table, GENESIS_TX))
  }

  /** The genesis record creates system identities and asserts nothing. */
  ghost predicate GenesisRecord(ids: map<int, Identity>, payload: Payload) {
    && payload.Changes? && payload.asserted == [] && payload.retracted == []
    && forall s :: s in payload.created ==> exists id :: id in ids && ids[id].selector == s
  }

  ghost predicate Starts(p: Db, start: Restoring) {
    && Pristine(p) && start.db == p && start.next == p.next
    && Finds(start.identities, p.ids) && FindsEvents(start.eventTx, p.events)
  }

  // ----- which stores can be restored -----

  /** Of two rows with one key the earlier one is retracted. */
  ghost predicate Layered(table: seq<Fact>) {
    forall i, j :: 0 <= i < j < |table| && table[i].key == table[j].key ==> table[i].rx.Some?
  }

  /** The store grew from the pristine one: its genesis rows, system identities and genesis event
      are untouched and everything else came later. */
  ghost predicate GrownFrom(p: Db, db: Db) {
    && db.events != [] && p.events != [] && db.events[0] == p.events[0]
    && |p.table| <= |db.table| && db.table[..|p.table|] == p.table
    && (forall i :: |p.table| <= i < |db.table| ==> db.table[i].tx > GENESIS_TX)
    && (forall id :: id in p.ids ==> id in db.ids && db.ids[id] == p.ids[id])
    && (forall id :: id in db.ids && id <= GENESIS_TX ==> id in p.ids)
  }

  /** A retained record names the identities its transaction created. */
  ghost predicate CreatedRecorded(db: Db) {
    forall i, j :: 0 <= i < j < |db.events| && j == i + 1 ==> CreatedOk(db.ids, db.events[i].tx, db.events[j])
  }

  predicate CreatedOk(ids: map<int, Identity>, before: int, ev: Event) {
    before < ev.tx && (ev.payload.Some? ==> PayloadCreated(ev.payload.value) == CreatedBy(ids, before + 1, ev.tx))
  }

  ghost predicate Restorable(p: Db, db: Db) {
    Sound(db) && GrownFrom(p, db) && Layered(db.table) && CreatedRecorded(db)
  }

  // ----- created identities -----

  lemma {:induction false} CreatedBelow(p: Db, db: Db, i: nat, id: int)
    requires Pristine(p) && Restorable(p, db) && i < |db.events| && id in db.ids && id <= db.events[i].tx
    ensures db.ids[id].created <= db.events[i].tx && db.ids[id].created in Txs(db.events)
  {
    hide Sound, Layered, CreatedRecorded, InStep, GenesisRecord;
    SoundHas(db);
    SoundHas(p);
    hide Rows, SelectorsDistinct;
    assert db.events[i] in db.events;
    if i == 0 {
      assert id in p.ids;
    } else {
      assert db.events[i - 1].tx < db.events[i].tx && GapFilled(db.events[i - 1].tx, db.events[i].tx, db.ids);
      if id <= db.events[i - 1].tx { CreatedBelow(p, db, i - 1, id); }
    }
  }

  lemma {:induction false} SkipOthers(ids: map<int, Identity>, tx: int, from: int, end: int)
    requires from <= end <= tx && forall id :: from <= id < end && id in ids ==> ids[id].created != tx
    ensures CreatedSelectors(ids, tx, from) == CreatedSelectors(ids, tx, end)
    decreases end - from
  {
    if from < end { SkipOthers(ids, tx, from + 1, end); }
  }

  lemma {:induction false} AllCreated(ids: map<int, Identity>, tx: int, from: int)
    requires from <= tx && forall id :: from <= id < tx ==> id in ids && ids[id].created == tx
    ensures CreatedSelectors(ids, tx, from) == CreatedBy(ids, from, tx)
    decreases tx - from
  {
    if from < tx {
      AllCreated(ids, tx, from + 1);
      assert CreatedBy(ids, from, tx) == [SelectorOf(ids, from)] + CreatedBy(ids, from + 1, tx);
    }
  }

  /** A receipt lists exactly the identities between the transaction before it and its own. */
  lemma GapBefore(p: Db, db: Db, i: nat, j: nat)
    requires Restorable(p, db) && j == i + 1 < |db.events|
    ensures GENESIS_TX <= db.events[i].tx < db.events[j].tx && GapFilled(db.events[i].tx, db.events[j].tx, db.ids)
  {
    TxsBounded(db);
    assert db.events[i] in db.events && db.events[i].tx in Txs(db.events);
  }

  lemma CreatedAre(p: Db, db: Db, i: nat, j: nat)
    requires Pristine(p) && Restorable(p, db) && j == i + 1 < |db.events|
    ensures db.events[i].tx < db.events[j].tx
    ensures CreatedSelectors(db.ids, db.events[j].tx, 1) == CreatedBy(db.ids, db.events[i].tx + 1, db.events[j].tx)
  {
    hide Pristine, Restorable, Sound;
    var before, tx := db.events[i].tx, db.events[j].tx;
    GapBefore(p, db, i, j);
    forall id | 1 <= id < before + 1 && id in db.ids ensures db.ids[id].created != tx {
      CreatedBelow(p, db, i, id);
    }
    SkipOthers(db.ids, tx, 1, before + 1);
    AllCreated(db.ids, tx, before + 1);
  }

  // ----- receipts -----

  function Upto(ids: map<int, Identity>, next: int): map<int, Identity> {
    map id | id in ids && id < next :: ids[id]
  }

  /** The state after the receipts of the first n events. */
  ghost predicate ReceiptsDone(p: Db, db: Db, n: nat, st: Restoring)
    requires n < |db.events|
  {
    && st.next == db.events[n].tx + 1
    && st.db == p.(ids := Upto(db.ids, st.next), events := db.events[..n + 1])
    && Finds(st.identities, st.db.ids)
    && FindsEvents(st.eventTx, st.db.events)
  }

  predicate IsSelector(ids: map<int, Identity>, id: int, s: Selector) {
    id in ids && ids[id].selector == s
  }

  lemma {:induction false} ReserveFinds(identities: map<Selector, int>, ids: map<int, Identity>, next: int, created: seq<Selector>)
    requires SelectorsDistinct(ids) && Finds(identities, Upto(ids, next))
    requires forall i :: 0 <= i < |created| ==> IsSelector(ids, next + i, created[i])
    ensures var r := Reserve(identities, next, created); r.Some? && Finds(r.value, Upto(ids, next + |created|))
  {
    hide Finds, Upto, SelectorsDistinct;
    if created != [] {
      var n := |created| - 1;
      forall i | 0 <= i < n ensures IsSelector(ids, next + i, created[..n][i]) {
        assert IsSelector(ids, next + i, created[i]);
      }
      ReserveFinds(identities, ids, next, created[..n]);
      assert IsSelector(ids, next + n, created[n]);
      FindsOneMore(Reserve(identities, next, created[..n]).value, ids, next + n);
    }
  }

  lemma FindsOneMore(identities: map<Selector, int>, ids: map<int, Identity>, next: int)
    requires SelectorsDistinct(ids) && Finds(identities, Upto(ids, next)) && next in ids
    ensures ids[next].selector !in identities
    ensures Finds(identities[ids[next].selector := next], Upto(ids, next + 1))
  {
    var s, more := ids[next].selector, Upto(ids, next + 1);
    forall t | t in identities ensures t != s {
      assert ids[identities[t]].selector == t && identities[t] < next;
      assert ids[identities[t]].selector != ids[next].selector;
    }
    forall id | id in more ensures more[id].selector in identities[s := next] && identities[s := next][more[id].selector] == id {
      if id != next {
        assert id in Upto(ids, next);
        assert ids[id].selector == ids[next].selector ==> id == next;
      }
    }
  }

  lemma EventIdentity(db: Db, ev: Event)
    requires Registry(db) && ev in db.events
    ensures EventAt(db.ids, ev.tx) == ev.uuid && ev.tx in db.ids && db.ids[ev.tx].selector == Eid(ev.uuid) && Sealed(ev)
  {
  }

  lemma UuidsDiffer(db: Db, i: nat, j: nat)
    requires Timeline(db) && Registry(db) && i < j < |db.events|
    ensures db.events[i].uuid != db.events[j].uuid
  {
    EventIdentity(db, db.events[i]);
    EventIdentity(db, db.events[j]);
    assert db.events[i].tx < db.events[j].tx;
    assert db.ids[db.events[i].tx].selector != db.ids[db.events[j].tx].selector;
  }

  lemma GapIds(db: Db, before: int, tx: int, uuid: Uuid)
    requires before < tx && GapFilled(before, tx, db.ids) && db.ids[tx].selector == Eid(uuid)
    ensures var created := CreatedBy(db.ids, before + 1, tx);
      && before + 1 + |created| == tx
      && (forall i :: 0 <= i < |created| ==> IsSelector(db.ids, before + 1 + i, created[i]))
      && Upto(db.ids, tx + 1) == Upto(db.ids, before + 1) + RestoredIds(before + 1, created, uuid)
  {
    var created := CreatedBy(db.ids, before + 1, tx);
    var more := RestoredIds(before + 1, created, uuid);
    forall id | before < id <= tx ensures id in more && id in db.ids && more[id] == db.ids[id] {
      assert db.ids[id].created == tx;
      if id < tx { assert created[id - (before + 1)] == SelectorOf(db.ids, before + 1 + (id - (before + 1))); }
    }
  }

  lemma SoundHas(db: Db)
    requires Sound(db)
    ensures Timeline(db) && Registry(db) && Rows(db)
  {
  }

  /** What one receipt line does to a state that is ready for it. */
  lemma ReceiptRestored(p: Db, db: Db, n: nat, st: Restoring)
    requires Pristine(p) && Restorable(p, db) && n + 1 < |db.events| && ReceiptsDone(p, db, n, st)
    ensures var r := RestoreReceipt(st, ReceiptOf(db.ids, db.events[n + 1])); r.Ok? && ReceiptsDone(p, db, n + 1, r.value)
  {
    hide Pristine, Sound, GrownFrom, Layered, Finds, FindsEvents, SelectorsDistinct, Upto, Reserve, RestoreReceipt, CreatedSelectors;
    var ev, before := db.events[n + 1], db.events[n].tx;
    SoundHas(db);
    CreatedAre(p, db, n, n + 1);
    EventIdentity(db, ev);
    assert GapFilled(before, ev.tx, db.ids);
    assert CreatedOk(db.ids, before, ev);
    NewEvent(db, n, st.eventTx);
    hide Timeline, Registry, CreatedRecorded;
    GapIds(db, before, ev.tx, ev.uuid);
    ReceiptAccepted(db, before, ev, st);
    assert db.events[..n + 2] == db.events[..n + 1] + [ev];
  }

  /** A line that names new identities and a new event is accepted. */
  lemma ReceiptAccepted(db: Db, before: int, ev: Event, st: Restoring)
    requires before < ev.tx && st.next == before + 1 && SelectorsDistinct(db.ids) && Finds(st.identities, Upto(db.ids, st.next))
    requires var created := CreatedBy(db.ids, before + 1, ev.tx);
      && (forall i :: 0 <= i < |created| ==> IsSelector(db.ids, before + 1 + i, created[i]))
      && CreatedSelectors(db.ids, ev.tx, 1) == created
      && (ev.payload.Some? ==> PayloadCreated(ev.payload.value) == created)
    requires EventAt(db.ids, ev.tx) == ev.uuid && ev.tx in db.ids && db.ids[ev.tx].selector == Eid(ev.uuid) && ev.uuid !in st.eventTx && Sealed(ev)
    ensures var r := RestoreReceipt(st, ReceiptOf(db.ids, ev)); var created := CreatedBy(db.ids, before + 1, ev.tx);
      && r.Ok? && r.value.next == ev.tx + 1
      && Finds(r.value.identities, Upto(db.ids, ev.tx + 1))
      && r.value.eventTx == st.eventTx[ev.uuid := ev.tx]
      && r.value.db == st.db.(ids := st.db.ids + RestoredIds(before + 1, created, ev.uuid), events := st.db.events + [ev])
  {
    hide Finds, Upto, SelectorsDistinct, Reserve, RestoredIds;
    var created := CreatedBy(db.ids, before + 1, ev.tx);
    ReserveFinds(st.identities, db.ids, st.next, created);
    FindsOneMore(Reserve(st.identities, st.next, created).value, db.ids, ev.tx);
    assert Event(ev.tx, ev.uuid, ev.payload, ev.operation, ev.hash) == ev;
  }

  lemma NewEvent(db: Db, n: nat, eventTx: map<Uuid, int>)
    requires Timeline(db) && Registry(db) && n + 1 < |db.events| && FindsEvents(eventTx, db.events[..n + 1])
    ensures var ev := db.events[n + 1]; ev.uuid !in eventTx && FindsEvents(eventTx[ev.uuid := ev.tx], db.events[..n + 2])
  {
    hide Timeline, Registry;
    var ev := db.events[n + 1];
    assert db.events[..n + 2] == db.events[..n + 1] + [ev];
    forall i | 0 <= i <= n ensures db.events[i].uuid != ev.uuid {
      UuidsDiffer(db, i, n + 1);
    }
  }

  lemma {:induction false} ReceiptsRestored(p: Db, db: Db, start: Restoring, n: nat)
    requires Starts(p, start) && Restorable(p, db) && n < |db.events|
    ensures var r := RestoreReceipts(start, ReceiptLines(db, n)); r.Ok? && ReceiptsDone(p, db, n, r.value)
  {
    hide Starts, Restorable, ReceiptsDone, RestoreReceipt, ReceiptOf;
    if n == 0 {
      NothingRestored(p, db, start);
    } else {
      ReceiptsRestored(p, db, start, n - 1);
      var lines := ReceiptLines(db, n);
      assert lines[..n - 1] == ReceiptLines(db, n - 1) && lines[n - 1] == ReceiptOf(db.ids, db.events[n]);
      StartsPristine(p, start);
      ReceiptRestored(p, db, n - 1, RestoreReceipts(start, ReceiptLines(db, n - 1)).value);
    }
  }

  lemma StartsPristine(p: Db, start: Restoring)
    requires Starts(p, start)
    ensures Pristine(p)
  {
  }

  lemma NothingRestored(p: Db, db: Db, start: Restoring)
    requires Starts(p, start) && Restorable(p, db)
    ensures ReceiptsDone(p, db, 0, start)
  {
    assert p.events == [p.events[0]] && db.events[..1] == p.events;
    assert p.events[0].tx == GENESIS_TX && p.next == GENESIS_TX + 1;
    OldIds(p, db);
  }

  lemma OldIds(p: Db, db: Db)
    requires GrownFrom(p, db) && Registry(p) && p.next == GENESIS_TX + 1
    ensures Upto(db.ids, p.next) == p.ids
  {
    var older := Upto(db.ids, p.next);
    forall id ensures id in older <==> id in p.ids {
    }
    forall id | id in p.ids ensures older[id] == p.ids[id] {
    }
  }

  // ----- facts -----

  /** A portable tuple resolves to the key it came from. */
  lemma TupleReturns(identities: map<Selector, int>, ids: map<int, Identity>, k: Triple)
    requires Finds(identities, ids) && forall id :: id in Mentions(k) ==> id in ids
    ensures ResolveTuple(identities, ToTuple(ids, k)) == Some(k)
  {
    assert k.e in Mentions(k) && k.a in Mentions(k) && (k.v.tag == TAG_REF ==> k.v.cell in Mentions(k));
  }

  lemma TxReturns(db: Db, eventTx: map<Uuid, int>, tx: int)
    requires Registry(db) && FindsEvents(eventTx, db.events) && tx in Txs(db.events)
    ensures EventAt(db.ids, tx) in eventTx && eventTx[EventAt(db.ids, tx)] == tx
  {
    var ev :| ev in db.events && ev.tx == tx;
    EventIdentity(db, ev);
  }

  /** Rows renumbered from `first` on. */
  function Numbering(rows: seq<Fact>, first: nat): seq<Fact> {
    seq(|rows|, i requires 0 <= i < |rows| => rows[i].(id := first + i))
  }

  /** The state after the first n user rows. */
  ghost predicate FactsDone(p: Db, db: Db, n: nat, st: Restoring)
    requires |p.table| + n <= |db.table|
  {
    && st.next == db.next && st.db.ids == db.ids && st.db.events == db.events
    && st.db.table == p.table + Numbering(db.table[|p.table|..|p.table| + n], p.nextRow)
    && st.db.nextRow == p.nextRow + n
    && Finds(st.identities, db.ids) && FindsEvents(st.eventTx, db.events) && InStep(st.db)
  }

  /** Earlier rows with the key of row n are retracted, so the live index has room for it. */
  lemma RoomForRow(p: Db, db: Db, n: nat, table: seq<Fact>)
    requires |p.table| + n < |db.table| && db.table[..|p.table|] == p.table && Layered(db.table)
    requires table == p.table + Numbering(db.table[|p.table|..|p.table| + n], p.nextRow)
    ensures !LiveKey(table, db.table[|p.table| + n].key)
  {
    var m := |p.table| + n;
    forall i | 0 <= i < |table| ensures table[i].key == db.table[m].key ==> table[i].rx.Some? {
      if i < |p.table| {
        assert table[i] == db.table[..|p.table|][i] == db.table[i];
      } else {
        assert table[i].key == db.table[i].key && table[i].rx == db.table[i].rx;
      }
    }
  }

  lemma AddRowInStep(db: Db, key: Triple, tx: int, rx: Option<int>)
    requires InStep(db)
    ensures InStep(AddRow(db, key, tx, rx))
  {
    var row := Fact(db.nextRow, key, tx, rx);
    LiveConcat(db.table, [row]);
    LiveOne(row);
    TextRowsSplit(LiveOf(db.table), LiveOf([row]));
    TextRowsSplit(db.table, [row]);
    assert TextRows([row]) == if IsText(key.v) then {TextRow(db.nextRow, key.v)} else {};
    assert Hashes([row]) == if IsIndirect(key.v) then {key.v.cell} else {};
    assert TextRows([]) == {};
  }

  lemma RowFacts(db: Db, f: Fact)
    requires Sound(db) && f in db.table
    ensures f.tx in Txs(db.events) && (f.rx.Some? ==> f.rx.value in Txs(db.events) && f.tx < f.rx.value)
    ensures forall id :: id in Mentions(f.key) ==> id in db.ids
  {
    assert RowOk(db, f);
  }

  lemma FactRestored(p: Db, db: Db, n: nat, st: Restoring)
    requires Restorable(p, db) && |p.table| + n < |db.table| && FactsDone(p, db, n, st)
    ensures var r := RestoreFact(st, FactOf(db.ids, db.table[|p.table| + n])); r.Ok? && FactsDone(p, db, n + 1, r.value)
  {
    hide Sound, Layered, Finds, FindsEvents, InStep, CreatedRecorded, LiveKey, RestoreFact, FactOf;
    var f := db.table[|p.table| + n];
    RoomForRow(p, db, n, st.db.table);
    RowRestored(db, st, f);
    AddRowInStep(st.db, f.key, f.tx, f.rx);
    var rows, more := db.table[|p.table|..|p.table| + n], db.table[|p.table|..|p.table| + (n + 1)];
    assert more == rows + [f];
    assert Numbering(more, p.nextRow) == Numbering(rows, p.nextRow) + [Fact(p.nextRow + n, f.key, f.tx, f.rx)];
  }

  /** A row's line adds the row again. */
  lemma RowRestored(db: Db, st: Restoring, f: Fact)
    requires Sound(db) && f in db.table && f.tx > GENESIS_TX && !LiveKey(st.db.table, f.key)
    requires Finds(st.identities, db.ids) && FindsEvents(st.eventTx, db.events)
    ensures RestoreFact(st, FactOf(db.ids, f)) == Ok(st.(db := AddRow(st.db, f.key, f.tx, f.rx)))
  {
    hide Sound, Finds, FindsEvents, LiveKey, Registry, Timeline, Rows;
    SoundHas(db);
    RowFacts(db, f);
    TupleReturns(st.identities, db.ids, f.key);
    TxReturns(db, st.eventTx, f.tx);
    if f.rx.Some? { TxReturns(db, st.eventTx, f.rx.value); }
  }

  lemma {:induction false} FactsRestored(p: Db, db: Db, st: Restoring, n: nat)
    requires Restorable(p, db) && |p.table| + n <= |db.table| && FactsDone(p, db, 0, st)
    ensures var r := RestoreFacts(st, FactLines(db.ids, db.table[|p.table|..|p.table| + n])); r.Ok? && FactsDone(p, db, n, r.value)
  {
    hide Restorable, FactsDone, RestoreFact, FactOf;
    if n > 0 {
      FactsRestored(p, db, st, n - 1);
      LinesSnoc(db, |p.table|, n - 1);
      var lines := FactLines(db.ids, db.table[|p.table|..|p.table| + (n - 1)]);
      FactRestored(p, db, n - 1, RestoreFacts(st, lines).value);
    }
  }

  lemma LinesSnoc(db: Db, first: nat, n: nat)
    requires first + n < |db.table|
    ensures var lines := FactLines(db.ids, db.table[first..first + (n + 1)]);
      |lines| == n + 1 && lines[..n] == FactLines(db.ids, db.table[first..first + n]) && lines[n] == FactOf(db.ids, db.table[first + n])
  {
    var rows := db.table[first..first + (n + 1)];
    assert rows[..n] == db.table[first..first + n] && rows[n] == db.table[first + n];
    assert FactLines(db.ids, rows)[..n] == FactLines(db.ids, rows[..n]);
  }

  lemma GenesisRows(p: Db)
    requires Pristine(p)
    ensures forall f :: f in p.table ==> f.tx == GENESIS_TX
  {
    forall f | f in p.table ensures f.tx == GENESIS_TX {
      assert RowOk(p, f);
      var ev :| ev in p.events && ev.tx == f.tx;
      assert ev == p.events[0];
    }
  }

  lemma GrownRows(p: Db, db: Db)
    requires GrownFrom(p, db)
    ensures |p.table| <= |db.table| && db.table[..|p.table|] == p.table
    ensures forall f :: f in db.table[|p.table|..] ==> f.tx > GENESIS_TX
  {
  }

  lemma UserRowsAre(p: Db, db: Db)
    requires Pristine(p) && GrownFrom(p, db)
    ensures UserRows(db.table) == db.table[|p.table|..]
  {
    hide Pristine, GrownFrom;
    GrownRows(p, db);
    var user := set f | f in db.table && f.tx > GENESIS_TX;
    var rest := db.table[|p.table|..];
    assert db.table == p.table + rest;
    KeepConcat(p.table, rest, user);
    GenesisRows(p);
    KeepNone(p.table, user);
    KeepAll(rest, user);
  }

  /** The restored rows are the original ones in the same order, renumbered in ascending order. */
  ghost predicate SameRows(restored: seq<Fact>, original: seq<Fact>) {
    && |restored| == |original| && ById(restored)
    && forall i :: 0 <= i < |original| ==> restored[i] == original[i].(id := restored[i].id)
  }

  lemma NumberedSame(p: Db, db: Db, table: seq<Fact>)
    requires Rows(p) && |p.table| <= |db.table| && db.table[..|p.table|] == p.table
    requires table == p.table + Numbering(db.table[|p.table|..], p.nextRow)
    ensures SameRows(table, db.table)
  {
    forall i | 0 <= i < |db.table| ensures table[i] == db.table[i].(id := table[i].id) {
      assert i < |p.table| ==> table[i] == db.table[..|p.table|][i] == db.table[i];
    }
    forall i, j | 0 <= i < j < |table| ensures table[i].id < table[j].id {
      if i < |p.table| { assert RowOk(p, p.table[i]); }
    }
  }

  lemma ReceiptsAll(p: Db, db: Db, st: Restoring)
    requires Pristine(p) && Restorable(p, db) && ReceiptsDone(p, db, |db.events| - 1, st)
    ensures FactsDone(p, db, 0, st)
  {
    hide Sound, Finds, FindsEvents, Layered, CreatedRecorded, LiveOf, TextRows, Hashes;
    SoundHas(db);
    assert db.events[..|db.events|] == db.events;
    assert Upto(db.ids, db.next) == db.ids;
    assert db.table[|p.table|..|p.table|] == [] && Numbering([], p.nextRow) == [];
    assert p.table + [] == p.table;
  }

  /** Round trip of the lines: reading a snapshot into a pristine store rebuilds every identity with its id,
      every transaction, every record and operation, every fact with its transaction and
      retraction in the same order, and the next id; only row numbers are assigned anew, in the
      same order.  The derived tables are in step. */
  lemma SnapshotRebuilds(p: Db, db: Db, start: Restoring)
    requires Starts(p, start) && Restorable(p, db)
    ensures var r := Rebuild(start, TakeSnapshot(db));
      && r.Ok?
      && r.value.ids == db.ids && r.value.events == db.events && r.value.next == db.next
      && SameRows(r.value.table, db.table) && InStep(r.value)
  {
    hide *;
    StartsPristine(p, start);
    RestorableParts(p, db);
    UserRowsAre(p, db);
    ReceiptsRestored(p, db, start, |db.events| - 1);
    var receipts := RestoreReceipts(start, ReceiptLines(db, |db.events| - 1)).value;
    ReceiptsAll(p, db, receipts);
    var n := |db.table| - |p.table|;
    assert db.table[|p.table|..|p.table| + n] == db.table[|p.table|..];
    FactsRestored(p, db, receipts, n);
    RestoreIs(p, db, start, receipts, RestoreFacts(receipts, FactLines(db.ids, db.table[|p.table|..])).value);
  }

  lemma RestorableParts(p: Db, db: Db)
    requires Restorable(p, db)
    ensures GrownFrom(p, db) && db.events != [] && |p.table| <= |db.table|
  {
  }

  lemma RestoreIs(p: Db, db: Db, start: Restoring, receipts: Restoring, st: Restoring)
    requires Pristine(p) && GrownFrom(p, db) && UserRows(db.table) == db.table[|p.table|..]
    requires RestoreReceipts(start, ReceiptLines(db, |db.events| - 1)) == Ok(receipts)
    requires RestoreFacts(receipts, FactLines(db.ids, db.table[|p.table|..])) == Ok(st)
    requires FactsDone(p, db, |db.table| - |p.table|, st)
    ensures var r := Rebuild(start, TakeSnapshot(db));
      && r.Ok?
      && r.value.ids == db.ids && r.value.events == db.events && r.value.next == db.next
      && SameRows(r.value.table, db.table) && InStep(r.value)
  {
    hide Sound, RestoreReceipts, RestoreFacts, FactLines, ReceiptLines, UserRows, SameRows, Finds, FindsEvents;
    SoundHas(p);
    assert db.table[|p.table|..|p.table| + (|db.table| - |p.table|)] == db.table[|p.table|..];
    NumberedSame(p, db, st.db.table);
  }
}
