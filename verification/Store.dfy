/** The store as a value and its two writer steps, each atomic: `Transact` (which also carries
    undo and event application, as requests) and `Excise`. */
module Store {
  import opened Facts
  import opened Planner
  import opened Localization
  import opened Identities
  import opened History

  // ----- the store -----

  /** How an identity is called outside this store. */
  datatype Selector = Name(text: string) | Eid(uuid: Uuid)

  datatype Identity = Identity(selector: Selector, created: int)

  datatype PortableValue = Reference(target: Selector) | Plain(value: Value)

  datatype Tuple = Tuple(e: Selector, a: Selector, v: PortableValue)

  /** What an event record keeps, with the instant of its origin.  A redaction record only lists
      the events it emptied. */
  datatype Payload =
    | Changes(at: int, created: seq<Selector>, asserted: seq<Tuple>, retracted: seq<Tuple>)
    | Redaction(at: int, redacts: set<Uuid>)

  /** A caller's operation id with the hash of its request. */
  datatype Operation = Operation(id: string, request: nat)

  /** An event.  An excision may empty its record but never changes its hash; hashing is injective,
      so the record as it was committed stands for its hash. */
  datatype Event = Event(tx: int, uuid: Uuid, payload: Option<Payload>, operation: Option<Operation>, hash: Payload)

  /** A row of the full-text index: a fact row's id and its text. */
  datatype TextRow = TextRow(id: nat, text: Value)

  datatype Db = Db(
    table: seq<Fact>,
    nextRow: nat,
    ids: map<int, Identity>,
    next: int,
    events: seq<Event>,
    fts: set<TextRow>,
    blobs: set<int>)

  datatype Reply =
    | Applied(tx: int, basis: int)
    | Unchanged(basis: int)
    | AlreadyApplied(tx: int, basis: int)
    | Failed(error: Error)

  function Txs(events: seq<Event>): set<int> {
    set ev | ev in events :: ev.tx
  }

  /** The latest event; 0 when there is none. */
  function Basis(events: seq<Event>): int {
    if events == [] then 0 else events[|events| - 1].tx
  }

  // ----- receipts of earlier operations -----

  /** The event that carries an operation id, if any. */
  function Receipt(events: seq<Event>, id: string): Option<Event> {
    if events == [] then None
    else
      var last := events[|events| - 1];
      if last.operation.Some? && last.operation.value.id == id then Some(last)
      else Receipt(events[..|events| - 1], id)
  }

  /** The basis an event was committed on: the event before it, or itself for the first. */
  function BasisBefore(events: seq<Event>, tx: int): int {
    if events == [] then tx
    else if events[|events| - 1].tx < tx then events[|events| - 1].tx
    else BasisBefore(events[..|events| - 1], tx)
  }

  /** The checks every writer makes first: a known operation id answers with its receipt, and
      only then is the basis compared. */
  function Precheck(events: seq<Event>, operation: Option<Operation>, guard: Option<int>): Option<Reply> {
    var prior := if operation.Some? then Receipt(events, operation.value.id) else None;
    if prior.Some? then
      if prior.value.operation == operation then
        Some(AlreadyApplied(prior.value.tx, BasisBefore(events, prior.value.tx)))
      else Some(Failed(Conflict))
    else if guard.Some? && guard.value != Basis(events) then Some(Failed(Conflict))
    else None
  }

  // ----- portable records -----

  function SelectorOf(ids: map<int, Identity>, id: int): Selector {
    if id in ids then ids[id].selector else Name("")
  }

  function ToTuple(ids: map<int, Identity>, k: Triple): Tuple {
    Tuple(SelectorOf(ids, k.e), SelectorOf(ids, k.a),
          if k.v.tag == TAG_REF then Reference(SelectorOf(ids, k.v.cell)) else Plain(k.v))
  }

  function ToTuples(ids: map<int, Identity>, rows: seq<Fact>): seq<Tuple> {
    seq(|rows|, i requires 0 <= i < |rows| => ToTuple(ids, rows[i].key))
  }

  /** A transaction's timestamp and the timestamp it was imported with are local receipt metadata
      and no part of the change lists. */
  predicate Exported(f: Fact) {
    !(f.key.e == f.tx && (f.key.a == ATTR_AT || f.key.a == ATTR_IMPORTED))
  }

  /** The keys of a transaction's timestamps, in row order. */
  function TimeKeys(table: seq<Fact>, tx: int): seq<Triple> {
    if table == [] then []
    else (if table[0].tx == tx && !Exported(table[0]) then [table[0].key] else []) + TimeKeys(table[1..], tx)
  }

  /** The last value of an attribute. */
  function LastCell(keys: seq<Triple>, a: int): Option<int> {
    if keys == [] then None
    else
      var n := |keys| - 1;
      if keys[n].a == a then Some(keys[n].v.cell) else LastCell(keys[..n], a)
  }

  /** The instant a record carries: that of the origin if the event was imported, and otherwise the
      transaction's own. */
  function OriginTime(keys: seq<Triple>): int {
    var imported, own := LastCell(keys, ATTR_IMPORTED), LastCell(keys, ATTR_AT);
    if imported.Some? then imported.value else if own.Some? then own.value else 0
  }

  function AssertedBy(table: seq<Fact>, tx: int): seq<Fact> {
    Keep(table, set f | f in table && f.tx == tx && Exported(f))
  }

  function RetractedBy(table: seq<Fact>, tx: int): seq<Fact> {
    Keep(table, set f | f in table && f.rx == Some(tx))
  }

  function CreatedBy(ids: map<int, Identity>, first: int, tx: int): seq<Selector>
    requires first <= tx
  {
    seq(tx - first, i requires 0 <= i < tx - first => SelectorOf(ids, first + i))
  }

  // ----- transact -----

  /** A resolved transaction.  Entity 0 in an assertion or in `meta` stands for the transaction
      entity; ids from the store's next id on are pending, one per claim. */
  datatype Request = Request(
    claims: seq<Claim>,
    ops: seq<Op>,
    meta: seq<Triple>,
    force: bool,
    guard: Option<int>,
    operation: Option<Operation>,
    at: int,
    uuid: Uuid)

  /** What a plan will write once its identities are compacted. */
  datatype Prepared = Prepared(delta: Delta, kept: seq<int>, claims: seq<Claim>)

  function PlannedList(facts: seq<Planned>): seq<Triple> {
    seq(|facts|, i requires 0 <= i < |facts| => facts[i].key)
  }

  function Prepare(db: Db, delta: Delta, claims: seq<Claim>): Prepared {
    var mentioned := MentionedBy(PlannedList(delta.assertions));
    Prepared(delta, Kept(db.next, claims, mentioned), KeptClaims(db.next, claims, mentioned))
  }

  function OnTransaction(tx: int, k: Triple): Triple {
    if k.e == 0 then k.(e := tx) else k
  }

  function AllOnTransaction(tx: int, keys: seq<Triple>): seq<Triple> {
    seq(|keys|, i requires 0 <= i < |keys| => OnTransaction(tx, keys[i]))
  }

  /** The rows of a commit: the timestamp, the metadata, then the assertions in plan order. */
  function NewKeys(first: int, tx: int, at: int, meta: seq<Triple>, prepared: Prepared): seq<Triple> {
    [Triple(tx, ATTR_AT, Value(TAG_INSTANT, at))]
    + AllOnTransaction(tx, meta)
    + AllOnTransaction(tx, RenameAll(first, prepared.kept, PlannedList(prepared.delta.assertions)))
  }

  function ClaimSelector(claim: Claim, event: Uuid, ordinal: nat): Selector {
    match claim
    case Anonymous => Eid(Derived(event, ordinal))
    case Named(name) => Name(name)
    case Imported(uuid) => Eid(uuid)
  }

  function NewIdentity(first: int, claims: seq<Claim>, event: Uuid, id: int): Identity {
    var tx := first + |claims|;
    Identity(if first <= id < tx then ClaimSelector(claims[id - first], event, id - first) else Eid(event), tx)
  }

  /** The identities a commit registers: one per kept claim, then the event's own. */
  function NewIdentities(first: int, claims: seq<Claim>, event: Uuid): map<int, Identity> {
    map id | first <= id <= first + |claims| :: NewIdentity(first, claims, event, id)
  }

  /** The registry's unique columns: no selector is registered twice. */
  predicate SelectorsDistinct(ids: map<int, Identity>) {
    forall i, j {:trigger ids[i].selector, ids[j].selector} ::
      i in ids && j in ids && ids[i].selector == ids[j].selector ==> i == j
  }

  function TextRows(rows: seq<Fact>): set<TextRow> {
    set f | f in rows && IsText(f.key.v) :: TextRow(f.id, f.key.v)
  }

  function Hashes(rows: seq<Fact>): set<int> {
    set f | f in rows && IsIndirect(f.key.v) :: f.key.v.cell
  }

  /** The blobs of retracted rows that no row refers to any more. */
  function Garbage(table: seq<Fact>, gone: seq<Fact>): set<int> {
    Hashes(gone) - Hashes(table)
  }

  /** Commits a prepared plan as transaction `tx`. */
  function Commit(schema: Schema, db: Db, req: Request, prepared: Prepared): Db {
    var tx := db.next + |prepared.kept|;
    var gone := set f | f in prepared.delta.retractions;
    var keys := NewKeys(db.next, tx, req.at, req.meta, prepared);
    var added := Fresh(db.nextRow, keys, tx);
    var table := Install(schema, db.table, db.nextRow, gone, keys, tx);
    var ids := db.ids + NewIdentities(db.next, prepared.claims, req.uuid);
    var payload := Changes(OriginTime(TimeKeys(table, tx)), CreatedBy(ids, db.next, tx), ToTuples(ids, AssertedBy(table, tx)), ToTuples(ids, RetractedBy(table, tx)));
    Db(table, db.nextRow + |keys|, ids, tx + 1,
       db.events + [Event(tx, req.uuid, Some(payload), req.operation, payload)],
       db.fts + TextRows(added) - TextRows(prepared.delta.retractions),
       db.blobs + Hashes(added) - Garbage(table, prepared.delta.retractions))
  }

  /** A plan that changes nothing, names nothing and carries no metadata is not recorded. */
  predicate IsNoop(req: Request, prepared: Prepared) {
    && prepared.delta.assertions == [] && prepared.delta.retractions == []
    && !req.force && req.meta == [] && req.operation.None? && prepared.kept == []
  }

  function Transact(schema: Schema, db: Db, req: Request): (Db, Reply) {
    var answer := Precheck(db.events, req.operation, req.guard);
    if answer.Some? then (db, answer.value)
    else
      match Plan(schema, LiveOf(db.table), req.ops)
      case Err(error) => (db, Failed(error))
      case Ok(delta) =>
        var prepared := Prepare(db, delta, req.claims);
        var tx := db.next + |prepared.kept|;
        if IsNoop(req, prepared) then (db, Unchanged(Basis(db.events)))
        else if tx >= MAX_ID then (db, Failed(TooLarge))
        else if !SelectorsDistinct(db.ids + NewIdentities(db.next, prepared.claims, req.uuid)) then (db, Failed(Conflict))
        else (Commit(schema, db, req, prepared), Applied(tx, Basis(db.events)))
  }

  // ----- excise -----

  /** The rows an excision erases: the entity's own, those it is the attribute of, and the
      references to it. */
  predicate Speaks(k: Triple, entity: int) {
    k.e == entity || k.a == entity || RefersTo(k.v, entity)
  }

  function Erased(table: seq<Fact>, entity: int): seq<Fact> {
    Keep(table, set f | f in table && Speaks(f.key, entity))
  }

  function Remaining(table: seq<Fact>, entity: int): seq<Fact> {
    Keep(table, set f | f in table && !Speaks(f.key, entity))
  }

  predicate TupleMentions(t: Tuple, selector: Selector) {
    t.e == selector || t.a == selector || t.v == Reference(selector)
  }

  predicate PayloadMentions(payload: Payload, selector: Selector) {
    match payload
    case Redaction(_, _) => false
    case Changes(_, created, asserted, retracted) =>
      || selector in created
      || (exists t :: t in asserted && TupleMentions(t, selector))
      || (exists t :: t in retracted && TupleMentions(t, selector))
  }

  /** The transactions whose events lose their payload: those that asserted or retracted an
      erased row, and those whose retained payload still mentions the entity. */
  function RedactedTxs(db: Db, entity: int): set<int> {
    var erased := Erased(db.table, entity);
    (set f | f in erased :: f.tx)
    + (set f | f in erased && f.rx.Some? :: f.rx.value)
    + (set ev | ev in db.events && ev.payload.Some? && PayloadMentions(ev.payload.value, SelectorOf(db.ids, entity)) :: ev.tx)
  }

  function Redact(events: seq<Event>, txs: set<int>): seq<Event> {
    seq(|events|, i requires 0 <= i < |events| => if events[i].tx in txs then events[i].(payload := None) else events[i])
  }

  function UuidsOf(events: seq<Event>, txs: set<int>): set<Uuid> {
    set ev | ev in events && ev.tx in txs :: ev.uuid
  }

  datatype Excision = Excision(entity: int, guard: Option<int>, operation: Option<Operation>, at: int, uuid: Uuid)

  /** Erases the entity as transaction `db.next` and leaves an audit marker. */
  function Erase(db: Db, ex: Excision): Db {
    var tx := db.next;
    var keys := [Triple(tx, ATTR_AT, Value(TAG_INSTANT, ex.at)), Triple(tx, ATTR_EXCISED, Value(TAG_REF, ex.entity))];
    var redacted := RedactedTxs(db, ex.entity);
    var table := Remaining(db.table, ex.entity);
    var payload := Redaction(ex.at, UuidsOf(db.events, redacted));
    Db(table + Fresh(db.nextRow, keys, tx), db.nextRow + 2,
       db.ids[tx := Identity(Eid(ex.uuid), tx)], tx + 1,
       Redact(db.events, redacted)
       + [Event(tx, ex.uuid, Some(payload), ex.operation, payload)],
       db.fts - TextRows(Erased(db.table, ex.entity)),
       db.blobs * Hashes(table))
  }

  function Excise(db: Db, ex: Excision): (Db, Reply) {
    var answer := Precheck(db.events, ex.operation, ex.guard);
    if answer.Some? then (db, answer.value)
    else if ex.entity !in db.ids then (db, Failed(NotFound))
    else if ex.entity <= GENESIS_TX || ex.entity in Txs(db.events) then (db, Failed(Unsupported))
    else if db.next >= MAX_ID then (db, Failed(TooLarge))
    else if !SelectorsDistinct(db.ids[db.next := Identity(Eid(ex.uuid), db.next)]) then (db, Failed(Conflict))
    else (Erase(db, ex), Applied(db.next, Basis(db.events)))
  }
}
