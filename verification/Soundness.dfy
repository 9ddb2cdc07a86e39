/** What every writer step keeps about the store's shape: row ids and the live index, the
    timeline of events, the identity registry without gaps, and the transaction receipts. */
module Soundness {
  import opened Facts
  import opened Planner
  import opened Localization
  import opened Identities
  import opened History
  import opened Replay
  import opened Store

  const LAST_SYSTEM_ATTR := 18

  // ----- the invariant -----

  ghost predicate RowOk(db: Db, f: Fact) {
    && f.id < db.nextRow
    && f.tx in Txs(db.events)
    && (f.rx.Some? ==> f.rx.value in Txs(db.events) && f.tx < f.rx.value)
    && (forall id :: id in Mentions(f.key) ==> id in db.ids && id <= f.tx)
  }

  ghost predicate Rows(db: Db) {
    ById(db.table) && LiveRows(LiveOf(db.table)) && forall f :: f in db.table ==> RowOk(db, f)
  }

  /** Events are in transaction order from genesis on, and the next id follows the last event. */
  ghost predicate Timeline(db: Db) {
    && db.events != []
    && db.events[0].tx == GENESIS_TX
    && (forall i, j :: 0 <= i < j < |db.events| ==> db.events[i].tx < db.events[j].tx)
    && db.next == Basis(db.events) + 1
  }

  /** A retained record has the event's hash. */
  predicate Sealed(ev: Event) {
    ev.payload.Some? ==> ev.payload.value == ev.hash
  }

  /** Every id from genesis to the last event is registered, under one selector, and was created
      by the first event at or after it: created ids exactly fill the gaps between events. */
  ghost predicate Registry(db: Db) {
    && (forall id :: id in db.ids ==> 0 < id < db.next)
    && (forall id :: GENESIS_TX <= id < db.next || 1 <= id <= LAST_SYSTEM_ATTR ==> id in db.ids)
    && SelectorsDistinct(db.ids)
    && (forall ev :: ev in db.events ==> ev.tx in db.ids && db.ids[ev.tx].selector == Eid(ev.uuid) && Sealed(ev))
    && GapsFilled(db.events, db.ids)
  }

  /** Each event has a live timestamp row of its own, and rows about a transaction entity were
      asserted by that transaction and are never retracted. */
  ghost predicate ReceiptsKept(db: Db) {
    && (forall tx :: tx in Txs(db.events) ==> HasReceipt(db.table, tx))
    && (forall f :: f in db.table && f.key.e in Txs(db.events) ==> OwnRow(f))
  }

  /** A row about a transaction entity: its own, not retracted; its timestamps are instants. */
  predicate OwnRow(f: Fact) {
    f.tx == f.key.e && f.rx.None? && (f.key.a == ATTR_AT || f.key.a == ATTR_IMPORTED ==> f.key.v.tag == TAG_INSTANT)
  }

  ghost predicate Sound(db: Db) {
    var sound := Rows(db) && Timeline(db) && Registry(db) && ReceiptsKept(db);
    sound
  }

  lemma TxsBounded(db: Db)
    requires Timeline(db)
    ensures forall tx :: tx in Txs(db.events) ==> GENESIS_TX <= tx < db.next
    ensures Basis(db.events) in Txs(db.events)
  {
    var last := db.events[|db.events| - 1];
    assert last in db.events;
    forall tx | tx in Txs(db.events) ensures GENESIS_TX <= tx < db.next {
      var ev :| ev in db.events && ev.tx == tx;
      var i :| 0 <= i < |db.events| && db.events[i] == ev;
      assert i == 0 || db.events[0].tx < db.events[i].tx;
      assert i == |db.events| - 1 || db.events[i].tx < last.tx;
    }
  }

  /** The receipts the planner sees are exactly the transactions. */
  lemma ReceiptsAreTxs(db: Db)
    requires Sound(db)
    ensures Receipts(LiveOf(db.table)) == Txs(db.events)
    ensures ReceiptsLive(db.table)
  {
    forall tx | tx in Txs(db.events) ensures tx in Receipts(LiveOf(db.table)) {
      var f :| f in db.table && f.key.e == tx && f.key.a == ATTR_AT && f.tx == tx;
      assert f in LiveOf(db.table);
    }
    forall f | f in LiveOf(db.table) && f.key.e == f.tx ensures f.key.e in Txs(db.events) {
      assert RowOk(db, f);
    }
    forall e | HasReceipt(db.table, e) ensures e in Receipts(LiveOf(db.table)) {
      var f :| f in db.table && f.key.e == e && f.key.a == ATTR_AT && f.tx == e;
      assert RowOk(db, f);
    }
  }

  // ----- requests -----

  predicate Reachable(db: Db, req: Request, id: int) {
    id in db.ids || db.next <= id < db.next + |req.claims|
  }

  /** Reserved transaction metadata: timestamp, by, source, meta. */
  predicate ReservedMeta(a: int) {
    1 <= a <= 4
  }

  /** A request as name resolution and validation hand it to the planner. */
  ghost predicate Resolved(db: Db, req: Request) {
    var resolved :=
    && UserPlan(LiveOf(db.table), req.ops)
    && (forall k :: Assert(k) in req.ops ==>
          && (k.e == 0 || Reachable(db, req, k.e))
          && (k.e == 0 ==> !ReservedMeta(k.a)) && (k.a == ATTR_IMPORTED ==> k.v.tag == TAG_INSTANT)
          && Reachable(db, req, k.a)
          && (k.v.tag == TAG_REF ==> Reachable(db, req, k.v.cell)))
    && (forall i :: 0 <= i < |req.meta| ==>
          && req.meta[i].e == 0 && ReservedMeta(req.meta[i].a) && req.meta[i].a != ATTR_AT
          && req.meta[i].a in db.ids && req.meta[i].v.tag != TAG_REF)
    && (forall i, j :: 0 <= i < j < |req.meta| ==> req.meta[i].a != req.meta[j].a);
    resolved
  }

  // ----- the rows a commit adds -----

  /** Where an asserted triple ends up: compacted, and on the new transaction if it asks for it. */
  function Final(first: int, kept: seq<int>, k: Triple): Triple {
    OnTransaction(first + |kept|, RenameTriple(first, kept, k))
  }

  /** An asserted triple whose ids survive compaction. */
  ghost predicate Settled(first: int, kept: seq<int>, k: Triple) {
    && SpokenTriple(first, kept, k)
    && (k.e == 0 ==> !ReservedMeta(k.a))
    && k.e >= 0 && k.a > 0
  }

  lemma FinalShape(first: int, claims: seq<Claim>, mentioned: set<int>, k: Triple)
    requires first > GENESIS_TX && Settled(first, Kept(first, claims, mentioned), k)
    ensures var kept := Kept(first, claims, mentioned);
      var r, tx := Final(first, kept, k), first + |kept|;
      && (r.e == tx <==> k.e == 0) && r.e <= tx
      && 0 < r.a < tx && (k.e == 0 ==> !ReservedMeta(r.a))
      && (k.v.tag == TAG_REF ==> r.v.tag == TAG_REF && r.v.cell < tx)
      && (k.v.tag != TAG_REF ==> r.v == k.v)
      && (r == k || exists id :: id in Mentions(r) && id >= first)
  {
    var kept := Kept(first, claims, mentioned);
    var tx, r := first + |kept|, Final(first, kept, k);
    KeptExactly(first, claims, mentioned);
    RenameExactly(first, claims, mentioned);
    assert k.e in Mentions(k) && k.a in Mentions(k);
    assert k.v.tag == TAG_REF ==> k.v.cell in Mentions(k);
    assert r.e in Mentions(r) && r.a in Mentions(r);
    assert r.v.tag == TAG_REF ==> r.v.cell in Mentions(r);
    if k.e > 0 && (forall id :: id in Mentions(k) ==> id < first) {
      RenameOld(first, kept, k);
    }
  }

  lemma FinalInjective(first: int, claims: seq<Claim>, mentioned: set<int>, k: Triple, l: Triple)
    requires first > GENESIS_TX
    requires var kept := Kept(first, claims, mentioned);
      Settled(first, kept, k) && Settled(first, kept, l) && Final(first, kept, k) == Final(first, kept, l)
    ensures k == l
  {
    FinalShape(first, claims, mentioned, k);
    FinalShape(first, claims, mentioned, l);
    KeptExactly(first, claims, mentioned);
    RenameTripleInjective(first, claims, mentioned, k, l);
  }

  // ----- a commit, step by step -----

  /** The situation in which a transaction is committed. */
  ghost predicate Committing(schema: Schema, db: Db, req: Request, delta: Delta) {
    && Sound(db) && Resolved(db, req)
    && Plan(schema, LiveOf(db.table), req.ops) == Ok(delta)
    && SelectorsDistinct(db.ids + NewIdentities(db.next, Prepare(db, delta, req.claims).claims, req.uuid))
  }

  lemma AssertionsSettled(schema: Schema, db: Db, req: Request, delta: Delta)
    requires Committing(schema, db, req, delta)
    ensures forall p :: p in delta.assertions ==>
      Assert(p.key) in req.ops && Settled(db.next, Prepare(db, delta, req.claims).kept, p.key)
  {
    hide Plan, SelectorsDistinct;
    var kept := Prepare(db, delta, req.claims).kept;
    Requested(schema, db, req, delta);
    KeptExactly(db.next, req.claims, MentionedBy(PlannedList(delta.assertions)));
    forall p | p in delta.assertions ensures Assert(p.key) in req.ops && Settled(db.next, kept, p.key) {
      var i :| 0 <= i < |delta.assertions| && delta.assertions[i] == p;
      assert PlannedList(delta.assertions)[i] == p.key;
      assert Assert(p.key) in req.ops;
    }
  }

  lemma Requested(schema: Schema, db: Db, req: Request, delta: Delta)
    requires Committing(schema, db, req, delta)
    ensures forall p :: p in delta.assertions ==> Assert(p.key) in req.ops
  {
    hide Resolved, SelectorsDistinct;
    RunOrders(schema, Receipts(LiveOf(db.table)), LiveOf(db.table), req.ops);
  }

  /** The new rows' keys, by where they come from. */
  lemma NewKeysFrom(first: int, tx: int, at: int, meta: seq<Triple>, prepared: Prepared)
    requires tx == first + |prepared.kept|
    ensures var keys := NewKeys(first, tx, at, meta, prepared);
      var assertions := prepared.delta.assertions;
      && |keys| == 1 + |meta| + |assertions|
      && keys[0] == Triple(tx, ATTR_AT, Value(TAG_INSTANT, at))
      && (forall i :: 0 <= i < |meta| ==> keys[1 + i] == OnTransaction(tx, meta[i]))
      && (forall i :: 0 <= i < |assertions| ==> keys[1 + |meta| + i] == Final(first, prepared.kept, assertions[i].key))
  {
  }

  /** A key a commit may add as a row of transaction `tx`. */
  ghost predicate Addable(db: Db, tx: int, k: Triple) {
    && (k.e == tx || (0 < k.e < tx && k.e !in Txs(db.events)))
    && 0 < k.a < tx
    && (forall id :: id in Mentions(k) ==> id in db.ids || db.next <= id <= tx)
    && k !in Keys(LiveOf(db.table))
  }

  lemma OwnKeyAddable(db: Db, tx: int, k: Triple)
    requires Sound(db) && tx >= db.next && k.e == tx && k.a in db.ids && k.v.tag != TAG_REF
    ensures Addable(db, tx, k)
  {
    NewIdNotLive(db, k, k.e);
  }

  function KeysOf(db: Db, req: Request, delta: Delta): seq<Triple> {
    var prepared := Prepare(db, delta, req.claims);
    NewKeys(db.next, db.next + |prepared.kept|, req.at, req.meta, prepared)
  }

  function TxOf(db: Db, req: Request, delta: Delta): int {
    db.next + |Prepare(db, delta, req.claims).kept|
  }

  lemma MetaKeyAddable(db: Db, req: Request, delta: Delta, i: nat)
    requires Sound(db) && Resolved(db, req) && i <= |req.meta|
    ensures var k := KeysOf(db, req, delta)[i];
      && Addable(db, TxOf(db, req, delta), k) && k.e == TxOf(db, req, delta) && ReservedMeta(k.a)
      && (k.a == ATTR_AT ==> k.v.tag == TAG_INSTANT)
  {
    var tx := TxOf(db, req, delta);
    NewKeysFrom(db.next, tx, req.at, req.meta, Prepare(db, delta, req.claims));
    if i > 0 {
      assert KeysOf(db, req, delta)[1 + (i - 1)] == OnTransaction(tx, req.meta[i - 1]);
    }
    OwnKeyAddable(db, tx, KeysOf(db, req, delta)[i]);
  }

  lemma AssertedKeyAddable(schema: Schema, db: Db, req: Request, delta: Delta, i: nat)
    requires Committing(schema, db, req, delta) && i < |delta.assertions|
    ensures var k := KeysOf(db, req, delta)[1 + |req.meta| + i];
      && k == Final(db.next, Prepare(db, delta, req.claims).kept, delta.assertions[i].key)
      && Addable(db, TxOf(db, req, delta), k) && (k.e == TxOf(db, req, delta) ==> !ReservedMeta(k.a))
      && (k.a == ATTR_IMPORTED ==> k.v.tag == TAG_INSTANT)
  {
    NewKeysFrom(db.next, TxOf(db, req, delta), req.at, req.meta, Prepare(db, delta, req.claims));
    AssertedKeyShape(schema, db, req, delta, delta.assertions[i]);
  }

  /** Every row a commit adds has an addable key; reserved attributes only come from metadata. */
  lemma NewKeyAddable(schema: Schema, db: Db, req: Request, delta: Delta, i: nat)
    requires Committing(schema, db, req, delta) && i < |KeysOf(db, req, delta)|
    ensures var k := KeysOf(db, req, delta)[i];
      && Addable(db, TxOf(db, req, delta), k)
      && (k.e == TxOf(db, req, delta) ==> (i <= |req.meta| <==> ReservedMeta(k.a)))
      && (i <= |req.meta| ==> k.e == TxOf(db, req, delta))
      && (k.e == TxOf(db, req, delta) && (k.a == ATTR_AT || k.a == ATTR_IMPORTED) ==> k.v.tag == TAG_INSTANT)
  {
    NewKeysFrom(db.next, TxOf(db, req, delta), req.at, req.meta, Prepare(db, delta, req.claims));
    if i <= |req.meta| {
      MetaKeyAddable(db, req, delta, i);
    } else {
      AssertedKeyAddable(schema, db, req, delta, i - 1 - |req.meta|);
    }
  }

  lemma NewIdNotLive(db: Db, k: Triple, id: int)
    requires Rows(db) && Registry(db) && id in Mentions(k) && id >= db.next
    ensures k !in Keys(LiveOf(db.table))
  {
    forall f | f in LiveOf(db.table) ensures f.key != k {
      assert RowOk(db, f);
    }
  }

  lemma ImportedIsInstant(schema: Schema, db: Db, req: Request, delta: Delta, p: Planned)
    requires Committing(schema, db, req, delta) && p in delta.assertions
    ensures var k := Final(db.next, Prepare(db, delta, req.claims).kept, p.key); k.a == ATTR_IMPORTED ==> k.v.tag == TAG_INSTANT
  {
    hide Plan;
    var mentioned := MentionedBy(PlannedList(delta.assertions));
    TxsBounded(db);
    AssertionsSettled(schema, db, req, delta);
    FinalShape(db.next, req.claims, mentioned, p.key);
    RenameExactly(db.next, req.claims, mentioned);
  }

  lemma AssertedKeyShape(schema: Schema, db: Db, req: Request, delta: Delta, p: Planned)
    requires Committing(schema, db, req, delta) && p in delta.assertions
    ensures var kept := Prepare(db, delta, req.claims).kept;
      var tx, k := db.next + |kept|, Final(db.next, kept, p.key);
      Addable(db, tx, k) && (k.e == tx ==> !ReservedMeta(k.a)) && (k.a == ATTR_IMPORTED ==> k.v.tag == TAG_INSTANT)
  {
    ImportedIsInstant(schema, db, req, delta, p);
    var first, kept := db.next, Prepare(db, delta, req.claims).kept;
    var mentioned, k := MentionedBy(PlannedList(delta.assertions)), Final(first, kept, p.key);
    TxsBounded(db);
    AssertionsSettled(schema, db, req, delta);
    FinalShape(first, req.claims, mentioned, p.key);
    if k == p.key {
      PlanRefines(schema, LiveOf(db.table), req.ops);
    } else {
      var id :| id in Mentions(k) && id >= first;
      NewIdNotLive(db, k, id);
    }
    FinalIds(db, req, mentioned, p.key);
    ReceiptsAreTxs(db);
  }

  /** Renamed ids are registered ones or new ones. */
  lemma RenamedId(db: Db, req: Request, mentioned: set<int>, id: int)
    requires (forall i :: i in db.ids ==> 0 < i < db.next) && Reachable(db, req, id)
    requires Spoken(db.next, Kept(db.next, req.claims, mentioned), id)
    ensures var kept := Kept(db.next, req.claims, mentioned); var r := Rename(db.next, kept, id);
      (r == id && id in db.ids) || db.next <= r < db.next + |kept|
  {
    KeptExactly(db.next, req.claims, mentioned);
  }

  lemma FinalIds(db: Db, req: Request, mentioned: set<int>, k: Triple)
    requires db.next > 0 && forall id :: id in db.ids ==> 0 < id < db.next
    requires (k.e == 0 || Reachable(db, req, k.e)) && Reachable(db, req, k.a)
    requires k.v.tag == TAG_REF ==> Reachable(db, req, k.v.cell)
    requires var kept := Kept(db.next, req.claims, mentioned); Settled(db.next, kept, k)
    ensures var kept := Kept(db.next, req.claims, mentioned); var r := Final(db.next, kept, k);
      && (forall id :: id in Mentions(r) ==> id in db.ids || db.next <= id <= db.next + |kept|)
      && (k.e != 0 ==> r.e == k.e || r.e >= db.next)
      && r.e > 0
  {
    var kept := Kept(db.next, req.claims, mentioned);
    assert k.e in Mentions(k) && k.a in Mentions(k);
    assert k.v.tag == TAG_REF ==> k.v.cell in Mentions(k);
    if k.e != 0 {
      RenamedId(db, req, mentioned, k.e);
    } else {
      RenameExactly(db.next, req.claims, mentioned);
    }
    RenamedId(db, req, mentioned, k.a);
    if k.v.tag == TAG_REF {
      RenamedId(db, req, mentioned, k.v.cell);
    }
  }

  lemma OwnKeysDistinct(db: Db, req: Request, delta: Delta, i: nat, j: nat)
    requires Resolved(db, req) && i < j <= |req.meta|
    ensures KeysOf(db, req, delta)[i].a != KeysOf(db, req, delta)[j].a
  {
    hide NewKeys, UserPlan, Reachable;
    var tx := TxOf(db, req, delta);
    NewKeysFrom(db.next, tx, req.at, req.meta, Prepare(db, delta, req.claims));
    assert KeysOf(db, req, delta)[1 + (j - 1)] == OnTransaction(tx, req.meta[j - 1]);
    if i > 0 {
      assert KeysOf(db, req, delta)[1 + (i - 1)] == OnTransaction(tx, req.meta[i - 1]);
      assert req.meta[i - 1].a != req.meta[j - 1].a;
    }
  }

  lemma AssertedKeysDistinct(schema: Schema, db: Db, req: Request, delta: Delta, i: nat, j: nat)
    requires Committing(schema, db, req, delta) && i < j < |delta.assertions|
    ensures var kept := Prepare(db, delta, req.claims).kept;
      Final(db.next, kept, delta.assertions[i].key) != Final(db.next, kept, delta.assertions[j].key)
  {
    PlanRefines(schema, LiveOf(db.table), req.ops);
    AssertedKeysApart(schema, db, req, delta, delta.assertions[i], delta.assertions[j]);
  }

  lemma NewKeysDiffer(schema: Schema, db: Db, req: Request, delta: Delta, i: nat, j: nat)
    requires Committing(schema, db, req, delta) && i < j < |KeysOf(db, req, delta)|
    ensures KeysOf(db, req, delta)[i] != KeysOf(db, req, delta)[j]
  {
    if j <= |req.meta| {
      OwnKeysDistinct(db, req, delta, i, j);
    } else if i <= |req.meta| {
      NewKeyAddable(schema, db, req, delta, i);
      NewKeyAddable(schema, db, req, delta, j);
    } else {
      LaterKeysDiffer(schema, db, req, delta, i, j);
    }
  }

  lemma LaterKeysDiffer(schema: Schema, db: Db, req: Request, delta: Delta, i: nat, j: nat)
    requires Committing(schema, db, req, delta) && |req.meta| < i < j < |KeysOf(db, req, delta)|
    ensures KeysOf(db, req, delta)[i] != KeysOf(db, req, delta)[j]
  {
    hide Committing, Kept, KeptClaims, NewKeys;
    NewKeysFrom(db.next, TxOf(db, req, delta), req.at, req.meta, Prepare(db, delta, req.claims));
    var i', j' := i - 1 - |req.meta|, j - 1 - |req.meta|;
    assert i == 1 + |req.meta| + i' && j == 1 + |req.meta| + j';
    AssertedKeysDistinct(schema, db, req, delta, i', j');
  }

  lemma AssertedKeysApart(schema: Schema, db: Db, req: Request, delta: Delta, p: Planned, q: Planned)
    requires Committing(schema, db, req, delta) && p in delta.assertions && q in delta.assertions
    ensures var kept := Prepare(db, delta, req.claims).kept;
      Final(db.next, kept, p.key) == Final(db.next, kept, q.key) ==> p.key == q.key
  {
    var kept := Prepare(db, delta, req.claims).kept;
    TxsBounded(db);
    AssertionsSettled(schema, db, req, delta);
    if Final(db.next, kept, p.key) == Final(db.next, kept, q.key) {
      FinalInjective(db.next, req.claims, MentionedBy(PlannedList(delta.assertions)), p.key, q.key);
    }
  }

  // ----- a commit keeps the store sound -----

  lemma TimelineGrows(events: seq<Event>, ev: Event)
    requires events != [] && (forall i, j :: 0 <= i < j < |events| ==> events[i].tx < events[j].tx) && Basis(events) < ev.tx
    ensures forall i, j :: 0 <= i < j < |events + [ev]| ==> (events + [ev])[i].tx < (events + [ev])[j].tx
    ensures Basis(events + [ev]) == ev.tx && Txs(events + [ev]) == Txs(events) + {ev.tx}
  {
    forall i | 0 <= i < |events| ensures events[i].tx < ev.tx {
      assert i < |events| - 1 ==> events[i].tx < events[|events| - 1].tx;
    }
    assert forall e :: e in events + [ev] <==> e in events || e == ev;
  }

  /** Every id between two consecutive events was created by the second. */
  ghost predicate GapsFilled(events: seq<Event>, ids: map<int, Identity>) {
    forall i, j :: 0 <= i < j < |events| && j == i + 1 ==> GapFilled(events[i].tx, events[j].tx, ids)
  }

  ghost predicate GapFilled(from: int, to: int, ids: map<int, Identity>) {
    forall id :: from < id <= to ==> id in ids && ids[id].created == to
  }

  lemma GapsGrow(db: Db, claims: seq<Claim>, ev: Event)
    requires Timeline(db) && GapsFilled(db.events, db.ids) && ev.tx == db.next + |claims|
    ensures GapsFilled(db.events + [ev], db.ids + NewIdentities(db.next, claims, ev.uuid))
  {
    var events, ids := db.events + [ev], db.ids + NewIdentities(db.next, claims, ev.uuid);
    TxsBounded(db);
    forall i, j | 0 <= i < j < |events| && j == i + 1 ensures GapFilled(events[i].tx, events[j].tx, ids) {
      if j < |db.events| {
        assert GapFilled(db.events[i].tx, db.events[j].tx, db.ids);
        assert db.events[j] in db.events;
      }
    }
  }

  lemma RegistryGrows(db: Db, next: Db, claims: seq<Claim>, ev: Event)
    requires Timeline(db) && Registry(db)
    requires ev.tx == db.next + |claims| && next.next == ev.tx + 1 && next.events == db.events + [ev]
    requires next.ids == db.ids + NewIdentities(db.next, claims, ev.uuid) && SelectorsDistinct(next.ids) && Sealed(ev)
    ensures Registry(next)
  {
    TxsBounded(db);
    GapsGrow(db, claims, ev);
    forall e | e in next.events ensures e.tx in next.ids && next.ids[e.tx].selector == Eid(e.uuid) && Sealed(e) {
      assert e in db.events || e == ev;
    }
  }

  /** No plan that callers may submit retracts a row about a transaction entity. */
  lemma {:induction false} ReceiptsSurvive(schema: Schema, rows: seq<Fact>, ops: seq<Op>, k: Triple)
    requires UserPlan(rows, ops) && k in Keys(rows) && k.e in Receipts(rows) && k.e != 0
    ensures k in ApplyAll(schema, Receipts(rows), Keys(rows), ops)
  {
    if ops != [] {
      var shorter, op := ops[..|ops| - 1], ops[|ops| - 1];
      assert forall o :: o in shorter ==> o in ops;
      ReceiptsSurvive(schema, rows, shorter, k);
      assert op in ops;
    }
  }

  lemma RetractionsSpareReceipts(schema: Schema, db: Db, req: Request, delta: Delta)
    requires Committing(schema, db, req, delta)
    ensures forall f :: f in delta.retractions ==> f in LiveOf(db.table) && f.key.e !in Txs(db.events)
  {
    var rows := LiveOf(db.table);
    PlanRefines(schema, rows, req.ops);
    ReceiptsAreTxs(db);
    TxsBounded(db);
    forall f | f in delta.retractions ensures f in rows && f.key.e !in Txs(db.events) {
      GoneExactly(rows, delta, f);
      if f.key.e in Txs(db.events) {
        ReceiptsSurvive(schema, rows, req.ops, f.key);
      }
    }
  }

  lemma FreshById(table: seq<Fact>, next: nat, keys: seq<Triple>, tx: int)
    requires ById(table) && forall f :: f in table ==> f.id < next
    ensures ById(table + Fresh(next, keys, tx))
  {
    var r := table + Fresh(next, keys, tx);
    forall i, j | 0 <= i < j < |r| ensures r[i].id < r[j].id {
      assert i < |table| ==> r[i] in table;
    }
  }

  /** Adding rows with distinct keys that are not live keeps the live index. */
  lemma LiveIndexKept(live: seq<Fact>, kept: seq<Fact>, next: nat, keys: seq<Triple>, tx: int)
    requires LiveRows(live) && ById(kept) && (forall f :: f in kept ==> f in live && f.id < next)
    requires forall i :: 0 <= i < |keys| ==> keys[i] !in Keys(live)
    requires forall i, j :: 0 <= i < j < |keys| ==> keys[i] != keys[j]
    ensures LiveRows(kept + Fresh(next, keys, tx))
  {
    var added := Fresh(next, keys, tx);
    FreshById(kept, next, keys, tx);
    forall f, g | f in added && g in added && f.key == g.key ensures f == g {
      var i :| 0 <= i < |added| && added[i] == f;
      var j :| 0 <= j < |added| && added[j] == g;
      assert !(i < j) && !(j < i);
    }
    forall f, g | f in kept && g in added ensures f.key != g.key {
      var j :| 0 <= j < |added| && added[j] == g;
      assert f.key in Keys(live);
    }
  }

  function Committed(schema: Schema, db: Db, req: Request, delta: Delta): Db {
    Commit(schema, db, req, Prepare(db, delta, req.claims))
  }

  function Gone(delta: Delta): set<Fact> {
    set f | f in delta.retractions
  }

  lemma CommitParts(schema: Schema, db: Db, req: Request, delta: Delta)
    ensures var db', tx := Committed(schema, db, req, delta), TxOf(db, req, delta);
      && db'.table == Install(schema, db.table, db.nextRow, Gone(delta), KeysOf(db, req, delta), tx)
      && db'.nextRow == db.nextRow + |KeysOf(db, req, delta)|
      && db'.next == tx + 1
      && |db'.events| == |db.events| + 1 && db'.events[..|db.events|] == db.events
      && db'.events == db.events + [db'.events[|db.events|]]
      && db'.events[|db.events|].tx == tx && db'.events[|db.events|].uuid == req.uuid
      && db'.events[|db.events|].operation == req.operation && Sealed(db'.events[|db.events|])
  {
    hide NewKeys, NewIdentities, CreatedBy, ToTuples, AssertedBy, RetractedBy, Install, Garbage, TextRows, Hashes;
  }

  lemma CommitTimeline(schema: Schema, db: Db, req: Request, delta: Delta)
    requires Committing(schema, db, req, delta)
    ensures Timeline(Committed(schema, db, req, delta)) && Registry(Committed(schema, db, req, delta))
    ensures Txs(Committed(schema, db, req, delta).events) == Txs(db.events) + {TxOf(db, req, delta)}
  {
    var db', prepared := Committed(schema, db, req, delta), Prepare(db, delta, req.claims);
    CommitParts(schema, db, req, delta);
    var ev := db'.events[|db.events|];
    TimelineGrows(db.events, ev);
    KeptExactly(db.next, req.claims, MentionedBy(PlannedList(delta.assertions)));
    RegistryGrows(db, db', prepared.claims, ev);
  }

  /** A row of the new table is an old row, an old row stamped by this commit, or a new row. */
  lemma CommitRow(schema: Schema, db: Db, req: Request, delta: Delta, f: Fact) returns (i: nat)
    requires f in Committed(schema, db, req, delta).table
    ensures
      var tx, keys := TxOf(db, req, delta), KeysOf(db, req, delta);
      || (f in db.table && f !in Gone(delta))
      || (f.rx == Some(tx) && exists g :: g in db.table && g in Gone(delta) && f == g.(rx := Some(tx)))
      || (i < |keys| && f == Fact(db.nextRow + i, keys[i], tx, None))
  {
    CommitParts(schema, db, req, delta);
    var tx, keys := TxOf(db, req, delta), KeysOf(db, req, delta);
    RetiredRows(schema, db.table, Gone(delta), tx, f);
    if f in Fresh(db.nextRow, keys, tx) {
      i :| 0 <= i < |keys| && Fresh(db.nextRow, keys, tx)[i] == f;
    } else {
      i := 0;
    }
  }

  lemma CommitRowOk(schema: Schema, db: Db, req: Request, delta: Delta, f: Fact)
    requires Committing(schema, db, req, delta) && f in Committed(schema, db, req, delta).table
    ensures RowOk(Committed(schema, db, req, delta), f)
    ensures f.key.e in Txs(Committed(schema, db, req, delta).events) ==> OwnRow(f)
  {
    hide *;
    var i := CommitRow(schema, db, req, delta, f);
    if i < |KeysOf(db, req, delta)| && f == Fact(db.nextRow + i, KeysOf(db, req, delta)[i], TxOf(db, req, delta), None) {
      AddedRowOk(schema, db, req, delta, i);
    } else if f in db.table {
      KeptRowOk(schema, db, req, delta, f, f);
    } else {
      var g :| g in db.table && g in Gone(delta) && f == g.(rx := Some(TxOf(db, req, delta)));
      KeptRowOk(schema, db, req, delta, g, f);
    }
  }

  lemma AddedRowOk(schema: Schema, db: Db, req: Request, delta: Delta, i: nat)
    requires Committing(schema, db, req, delta) && i < |KeysOf(db, req, delta)|
    ensures var f := Fact(db.nextRow + i, KeysOf(db, req, delta)[i], TxOf(db, req, delta), None);
      RowOk(Committed(schema, db, req, delta), f) && (f.key.e in Txs(Committed(schema, db, req, delta).events) ==> OwnRow(f))
  {
    hide Committed, Plan, Resolved, SelectorsDistinct, KeysOf, TxOf, Mentions, OwnRow;
    CommitParts(schema, db, req, delta);
    KnownAfter(schema, db, req, delta);
    CommitTimeline(schema, db, req, delta);
    NewKeyAddable(schema, db, req, delta, i);
    IdsBelow(db, req, delta);
    NewRowOwn(Fact(db.nextRow + i, KeysOf(db, req, delta)[i], TxOf(db, req, delta), None), TxOf(db, req, delta));
  }

  lemma IdsBelow(db: Db, req: Request, delta: Delta)
    requires Sound(db)
    ensures db.next <= TxOf(db, req, delta) && forall id :: id in db.ids ==> id < db.next
  {
  }

  /** A row that was there before, stamped by this commit or not. */
  lemma KeptRowOk(schema: Schema, db: Db, req: Request, delta: Delta, g: Fact, f: Fact)
    requires Committing(schema, db, req, delta) && g in db.table
    requires f == g || (g in Gone(delta) && f == g.(rx := Some(TxOf(db, req, delta))))
    ensures RowOk(Committed(schema, db, req, delta), f)
    ensures f.key.e in Txs(Committed(schema, db, req, delta).events) ==> OwnRow(f)
  {
    hide Committing, Committed, KeysOf, TxOf, Mentions, OwnRow, Sound, Timeline, Registry;
    CommittingSound(schema, db, req, delta);
    CommitParts(schema, db, req, delta);
    KnownAfter(schema, db, req, delta);
    CommitTimeline(schema, db, req, delta);
    SoundRow(db, g);
    RetractionsSpareReceipts(schema, db, req, delta);
    IdsBelow(db, req, delta);
  }

  lemma CommittingSound(schema: Schema, db: Db, req: Request, delta: Delta)
    requires Committing(schema, db, req, delta)
    ensures Sound(db)
  {
  }

  lemma SoundRow(db: Db, g: Fact)
    requires Sound(db) && g in db.table
    ensures RowOk(db, g) && (g.key.e in Txs(db.events) ==> OwnRow(g))
    ensures g.key.e in db.ids && forall tx :: tx in Txs(db.events) ==> tx < db.next
  {
    TxsBounded(db);
    EntityMentioned(g.key);
  }

  lemma KnownAfter(schema: Schema, db: Db, req: Request, delta: Delta)
    ensures forall id :: id in db.ids || db.next <= id <= TxOf(db, req, delta) ==> id in Committed(schema, db, req, delta).ids
  {
    KeptExactly(db.next, req.claims, MentionedBy(PlannedList(delta.assertions)));
  }

  lemma NewRowOwn(f: Fact, tx: int)
    requires f.tx == tx && f.rx.None? && (f.key.a == ATTR_AT || f.key.a == ATTR_IMPORTED ==> f.key.e == tx ==> f.key.v.tag == TAG_INSTANT)
    ensures f.key.e == tx ==> OwnRow(f)
  {
  }

  lemma EntityMentioned(k: Triple)
    ensures k.e in Mentions(k)
  {
  }

  lemma CommitRows(schema: Schema, db: Db, req: Request, delta: Delta)
    requires Committing(schema, db, req, delta)
    ensures Rows(Committed(schema, db, req, delta))
  {
    var db', tx, keys, gone := Committed(schema, db, req, delta), TxOf(db, req, delta), KeysOf(db, req, delta), Gone(delta);
    CommitParts(schema, db, req, delta);
    RetiredById(schema, db.table, gone, tx);
    forall f | f in Retired(schema, db.table, gone, tx) ensures f.id < db.nextRow {
      RetiredRows(schema, db.table, gone, tx, f);
      assert forall g :: g in db.table ==> RowOk(db, g);
    }
    FreshById(Retired(schema, db.table, gone, tx), db.nextRow, keys, tx);
    CommitLive(schema, db, req, delta);
    forall f | f in db'.table ensures RowOk(db', f) {
      CommitRowOk(schema, db, req, delta, f);
    }
  }

  /** The live rows after a commit: the old ones that were not retracted, then the new ones. */
  lemma CommitLive(schema: Schema, db: Db, req: Request, delta: Delta)
    requires Committing(schema, db, req, delta)
    ensures var live := LiveOf(Committed(schema, db, req, delta).table);
      && LiveRows(live)
      && live == Keep(db.table, set f | f in db.table && f.rx.None? && f !in Gone(delta))
                 + Fresh(db.nextRow, KeysOf(db, req, delta), TxOf(db, req, delta))
  {
    var keys, tx := KeysOf(db, req, delta), TxOf(db, req, delta);
    var stay := set f | f in db.table && f.rx.None? && f !in Gone(delta);
    CommitParts(schema, db, req, delta);
    LiveInstalled(schema, db.table, db.nextRow, Gone(delta), keys, tx);
    KeepById(db.table, stay);
    forall i | 0 <= i < |keys| ensures keys[i] !in Keys(LiveOf(db.table)) {
      NewKeyAddable(schema, db, req, delta, i);
    }
    forall i, j | 0 <= i < j < |keys| ensures keys[i] != keys[j] {
      NewKeysDiffer(schema, db, req, delta, i, j);
    }
    forall f | f in Keep(db.table, stay) ensures f in LiveOf(db.table) && f.id < db.nextRow {
      assert RowOk(db, f);
    }
    LiveIndexKept(LiveOf(db.table), Keep(db.table, stay), db.nextRow, keys, tx);
  }

  lemma CommitReceipts(schema: Schema, db: Db, req: Request, delta: Delta)
    requires Committing(schema, db, req, delta)
    ensures ReceiptsKept(Committed(schema, db, req, delta))
  {
    var db', tx, keys := Committed(schema, db, req, delta), TxOf(db, req, delta), KeysOf(db, req, delta);
    CommitParts(schema, db, req, delta);
    CommitTimeline(schema, db, req, delta);
    RetractionsSpareReceipts(schema, db, req, delta);
    NewKeysFrom(db.next, tx, req.at, req.meta, Prepare(db, delta, req.claims));
    var stamp := Fresh(db.nextRow, keys, tx)[0];
    assert stamp in db'.table && stamp.key.e == tx && stamp.key.a == ATTR_AT && stamp.tx == tx;
    forall e | e in Txs(db.events) ensures HasReceipt(db'.table, e) {
      var f :| f in db.table && f.key.e == e && f.key.a == ATTR_AT && f.tx == e;
      RetiredRows(schema, db.table, Gone(delta), tx, f);
      assert f in db'.table;
    }
    forall f | f in db'.table && f.key.e in Txs(db'.events) ensures OwnRow(f) {
      CommitRowOk(schema, db, req, delta, f);
    }
  }

  lemma CommitSound(schema: Schema, db: Db, req: Request, delta: Delta)
    requires Committing(schema, db, req, delta)
    ensures Sound(Committed(schema, db, req, delta))
  {
    CommitTimeline(schema, db, req, delta);
    CommitRows(schema, db, req, delta);
    CommitReceipts(schema, db, req, delta);
  }

  // ----- an excision keeps the store sound -----

  ghost predicate Excising(db: Db, ex: Excision) {
    && Sound(db) && ex.entity in db.ids && ex.entity > GENESIS_TX && ex.entity !in Txs(db.events)
    && SelectorsDistinct(db.ids[db.next := Identity(Eid(ex.uuid), db.next)])
  }

  function MarkerKeys(db: Db, ex: Excision): seq<Triple> {
    [Triple(db.next, ATTR_AT, Value(TAG_INSTANT, ex.at)), Triple(db.next, ATTR_EXCISED, Value(TAG_REF, ex.entity))]
  }

  lemma EraseParts(db: Db, ex: Excision)
    ensures var db' := Erase(db, ex);
      && db'.table == Remaining(db.table, ex.entity) + Fresh(db.nextRow, MarkerKeys(db, ex), db.next)
      && db'.nextRow == db.nextRow + 2 && db'.next == db.next + 1
      && |db'.events| == |db.events| + 1
      && (forall i :: 0 <= i < |db.events| ==>
            && db'.events[i].tx == db.events[i].tx && db'.events[i].uuid == db.events[i].uuid
            && db'.events[i].operation == db.events[i].operation)
      && db'.ids == db.ids[db.next := Identity(Eid(ex.uuid), db.next)]
    ensures var payload := Redaction(ex.at, UuidsOf(db.events, RedactedTxs(db, ex.entity)));
      Erase(db, ex).events[|db.events|] == Event(db.next, ex.uuid, Some(payload), ex.operation, payload)
  {
  }

  lemma RedactKeepsTxs(events: seq<Event>, txs: set<int>)
    ensures Txs(Redact(events, txs)) == Txs(events) && Basis(Redact(events, txs)) == Basis(events)
  {
    var past := Redact(events, txs);
    forall tx | tx in Txs(events) ensures tx in Txs(past) {
      var e :| e in events && e.tx == tx;
      var i :| 0 <= i < |events| && events[i] == e;
      assert past[i] in past;
    }
    forall e | e in past ensures e.tx in Txs(events) {
      var i :| 0 <= i < |past| && past[i] == e;
      assert events[i] in events;
    }
  }

  lemma RedactKeepsTimeline(db: Db, txs: set<int>)
    requires Timeline(db)
    ensures Timeline(db.(events := Redact(db.events, txs)))
  {
    RedactKeepsTxs(db.events, txs);
  }

  lemma RedactKeepsGaps(events: seq<Event>, ids: map<int, Identity>, txs: set<int>)
    requires GapsFilled(events, ids)
    ensures GapsFilled(Redact(events, txs), ids)
  {
    var past := Redact(events, txs);
    forall i, j | 0 <= i < j < |past| && j == i + 1 ensures GapFilled(past[i].tx, past[j].tx, ids) {
      assert GapFilled(events[i].tx, events[j].tx, ids);
    }
  }

  lemma RedactKeepsRegistry(db: Db, txs: set<int>)
    requires Registry(db)
    ensures Registry(db.(events := Redact(db.events, txs)))
  {
    var past := Redact(db.events, txs);
    RedactKeepsGaps(db.events, db.ids, txs);
    forall e | e in past ensures e.tx in db.ids && db.ids[e.tx].selector == Eid(e.uuid) {
      var i :| 0 <= i < |past| && past[i] == e;
      assert db.events[i] in db.events;
    }
  }

  lemma OneIdentity(next: int, event: Uuid)
    ensures NewIdentities(next, [], event) == map[next := Identity(Eid(event), next)]
  {
    assert NewIdentity(next, [], event, next) == Identity(Eid(event), next);
    assert forall id :: id in NewIdentities(next, [], event) <==> id == next;
  }

  lemma EraseTimeline(db: Db, ex: Excision)
    requires Timeline(db) && Registry(db) && SelectorsDistinct(db.ids[db.next := Identity(Eid(ex.uuid), db.next)])
    ensures Timeline(Erase(db, ex)) && Registry(Erase(db, ex))
    ensures Txs(Erase(db, ex).events) == Txs(db.events) + {db.next}
  {
    hide RedactedTxs, GapsFilled, SelectorsDistinct;
    var db', txs := Erase(db, ex), RedactedTxs(db, ex.entity);
    var past := Redact(db.events, txs);
    EraseParts(db, ex);
    var ev := db'.events[|db.events|];
    assert db'.events == past + [ev];
    RedactKeepsTxs(db.events, txs);
    RedactKeepsTimeline(db, txs);
    RedactKeepsRegistry(db, txs);
    TimelineGrows(past, ev);
    OneIdentity(db.next, ex.uuid);
    assert db'.ids == db.ids + NewIdentities(db.next, [], ex.uuid);
    RegistryGrows(db.(events := past), db', [], ev);
  }

  lemma EraseRow(db: Db, ex: Excision, f: Fact)
    requires f in Erase(db, ex).table
    ensures (f in db.table && !Speaks(f.key, ex.entity))
      || f == Fact(db.nextRow, MarkerKeys(db, ex)[0], db.next, None)
      || f == Fact(db.nextRow + 1, MarkerKeys(db, ex)[1], db.next, None)
  {
    EraseParts(db, ex);
    var added := Fresh(db.nextRow, MarkerKeys(db, ex), db.next);
    assert added == [added[0], added[1]];
  }

  lemma MarkersMention(db: Db, ex: Excision)
    ensures Mentions(MarkerKeys(db, ex)[0]) == {db.next, ATTR_AT}
    ensures Mentions(MarkerKeys(db, ex)[1]) == {db.next, ATTR_EXCISED, ex.entity}
  {
  }

  lemma EraseRowOk(db: Db, ex: Excision, f: Fact)
    requires (forall g :: g in db.table ==> RowOk(db, g)) && f in Erase(db, ex).table
    requires ATTR_AT in db.ids && ATTR_EXCISED in db.ids && ex.entity in db.ids && forall id :: id in db.ids ==> id < db.next
    requires Txs(Erase(db, ex).events) == Txs(db.events) + {db.next}
    ensures RowOk(Erase(db, ex), f)
  {
    hide Erase, Mentions;
    EraseRow(db, ex, f);
    EraseParts(db, ex);
    MarkersMention(db, ex);
    assert f in db.table ==> RowOk(db, f);
  }

  lemma EraseRows(db: Db, ex: Excision)
    requires Rows(db) && Timeline(db) && Registry(db) && ex.entity in db.ids
    requires SelectorsDistinct(db.ids[db.next := Identity(Eid(ex.uuid), db.next)])
    ensures Rows(Erase(db, ex))
  {
    EraseTimeline(db, ex);
    forall f | f in Erase(db, ex).table ensures RowOk(Erase(db, ex), f) {
      EraseRowOk(db, ex, f);
    }
    EraseTable(db, ex);
  }

  lemma EraseTable(db: Db, ex: Excision)
    requires Rows(db) && Registry(db)
    ensures ById(Erase(db, ex).table) && LiveRows(LiveOf(Erase(db, ex).table))
  {
    var rest, keys := Remaining(db.table, ex.entity), MarkerKeys(db, ex);
    EraseParts(db, ex);
    KeepById(db.table, set f | f in db.table && !Speaks(f.key, ex.entity));
    forall f | f in db.table ensures f.id < db.nextRow {
      assert RowOk(db, f);
    }
    FreshById(rest, db.nextRow, keys, db.next);
    NewIdNotLive(db, keys[0], db.next);
    NewIdNotLive(db, keys[1], db.next);
    EraseLive(db.table, db.nextRow, ex.entity, keys, db.next);
  }

  lemma EraseLive(table: seq<Fact>, nextRow: nat, entity: int, keys: seq<Triple>, tx: int)
    requires ById(table) && LiveRows(LiveOf(table)) && (forall f :: f in table ==> f.id < nextRow)
    requires |keys| == 2 && keys[0] != keys[1] && keys[0] !in Keys(LiveOf(table)) && keys[1] !in Keys(LiveOf(table))
    ensures LiveRows(LiveOf(Remaining(table, entity) + Fresh(nextRow, keys, tx)))
  {
    hide LiveRows, Remaining, LiveOf, Keys;
    var rest, added := Remaining(table, entity), Fresh(nextRow, keys, tx);
    LiveConcat(rest, added);
    FreshLive(nextRow, keys, tx);
    RestLive(table, entity);
    LiveIndexKept(LiveOf(table), LiveOf(rest), nextRow, keys, tx);
  }

  lemma FreshLive(nextRow: nat, keys: seq<Triple>, tx: int)
    ensures LiveOf(Fresh(nextRow, keys, tx)) == Fresh(nextRow, keys, tx)
  {
    var added := Fresh(nextRow, keys, tx);
    KeepAll(added, set f | f in added && f.rx.None?);
  }

  lemma RestLive(table: seq<Fact>, entity: int)
    requires ById(table)
    ensures ById(LiveOf(Remaining(table, entity)))
    ensures forall f :: f in LiveOf(Remaining(table, entity)) ==> f in LiveOf(table) && f in table
  {
    var rest := Remaining(table, entity);
    KeepById(table, set f | f in table && !Speaks(f.key, entity));
    KeepById(rest, set f | f in rest && f.rx.None?);
  }

  lemma ErasedOwnRow(db: Db, ex: Excision, f: Fact)
    requires (forall g :: g in db.table ==> RowOk(db, g)) && ReceiptsKept(db) && (forall id :: id in db.ids ==> id < db.next)
    requires f in Erase(db, ex).table && (f.key.e in Txs(db.events) || f.key.e == db.next)
    ensures OwnRow(f)
  {
    EraseRow(db, ex, f);
    assert f in db.table ==> RowOk(db, f) && f.key.e in Mentions(f.key);
  }

  lemma EraseReceipts(db: Db, ex: Excision)
    requires Excising(db, ex)
    ensures ReceiptsKept(Erase(db, ex))
  {
    hide Erase, HasReceipt, OwnRow, Timeline, SelectorsDistinct;
    var db' := Erase(db, ex);
    EraseTimeline(db, ex);
    NewReceipt(db, ex);
    forall e | e in Txs(db'.events) ensures HasReceipt(db'.table, e) {
      if e in Txs(db.events) { OldReceiptStays(db, ex, e); }
    }
    forall f | f in db'.table && f.key.e in Txs(db'.events) ensures OwnRow(f) {
      ErasedOwnRow(db, ex, f);
    }
  }

  lemma NewReceipt(db: Db, ex: Excision)
    ensures HasReceipt(Erase(db, ex).table, db.next)
  {
    EraseParts(db, ex);
    var stamp := Fresh(db.nextRow, MarkerKeys(db, ex), db.next)[0];
    assert stamp in Erase(db, ex).table;
  }

  lemma OldReceiptStays(db: Db, ex: Excision, e: int)
    requires ReceiptsKept(db) && e in Txs(db.events) && ex.entity !in Txs(db.events) && ex.entity > GENESIS_TX
    ensures HasReceipt(Erase(db, ex).table, e)
  {
    var f :| f in db.table && f.key.e == e && f.key.a == ATTR_AT && f.tx == e;
    assert OwnRow(f) && !Speaks(f.key, ex.entity);
    EraseParts(db, ex);
    assert f in Remaining(db.table, ex.entity);
  }

  lemma EraseSound(db: Db, ex: Excision)
    requires Excising(db, ex)
    ensures Sound(Erase(db, ex))
  {
    EraseTimeline(db, ex);
    EraseRows(db, ex);
    EraseReceipts(db, ex);
  }
}
