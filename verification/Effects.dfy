/** What the two writer steps do, said of the store before and after: the facts that hold, the
    rows, the identities and the event records. */
module Effects {
  import opened Facts
  import opened Planner
  import opened Localization
  import opened Identities
  import opened History
  import opened Replay
  import opened Store
  import opened Soundness
  import opened Runs

  // ----- one operation -----

  /** Retracting a whole entity leaves none of its facts and, outside the system and the receipts,
      no reference to it; everything else stays. */
  lemma WholeRetraction(schema: Schema, shielded: set<int>, facts: set<Triple>, e: int)
    ensures var after := Apply(schema, shielded, facts, Retract(e, None, None));
      && (forall k :: k in after ==> k in facts && k.e != e)
      && (forall k :: k in after && k.v == Value(TAG_REF, e) ==> k.e <= GENESIS_TX || k.e in shielded)
      && (forall k :: k in facts && k.e != e && k.v != Value(TAG_REF, e) ==> k in after)
      && (forall k :: k in facts && k.e != e && (k.e <= GENESIS_TX || k.e in shielded) ==> k in after)
  {
  }

  /** Retracting a slot empties it, and retracting one fact takes that fact; nothing else goes. */
  lemma SlotRetraction(schema: Schema, shielded: set<int>, facts: set<Triple>, e: int, a: int, v: Value)
    ensures forall k :: k in Apply(schema, shielded, facts, Retract(e, Some(a), None)) <==> k in facts && !(k.e == e && k.a == a)
    ensures Apply(schema, shielded, facts, Retract(e, Some(a), Some(v))) == facts - {Triple(e, a, v)}
  {
  }

  /** An asserted fact holds; it displaces the other values of its slot if the attribute holds one
      value and the fact did not hold already, and nothing else. */
  lemma Assertion(schema: Schema, shielded: set<int>, facts: set<Triple>, key: Triple)
    ensures var after := Apply(schema, shielded, facts, Assert(key));
      && key in after
      && (key in facts || key.a in schema.many ==> after == facts + {key})
      && (forall k :: k in after && k != key ==> k in facts && (key !in facts && key.a !in schema.many ==> k.e != key.e || k.a != key.a))
      && (forall k :: k in facts && (k.e != key.e || k.a != key.a) ==> k in after)
  {
  }

  // ----- a commit -----

  /** The facts of a request: what the operations leave of the live facts, one by one. */
  function Wanted(schema: Schema, db: Db, ops: seq<Op>): set<Triple> {
    ApplyAll(schema, Receipts(LiveOf(db.table)), Keys(LiveOf(db.table)), ops)
  }

  /** What holds after a commit: what the operations leave, with new identities moved to their
      final ids, and the facts about the transaction itself. */
  lemma CommitMeans(schema: Schema, db: Db, req: Request, delta: Delta)
    requires Committing(schema, db, req, delta)
    ensures var live, was := Keys(LiveOf(Committed(schema, db, req, delta).table)), Keys(LiveOf(db.table));
      var wanted, tx := Wanted(schema, db, req.ops), TxOf(db, req, delta);
      var kept := Prepare(db, delta, req.claims).kept;
      forall k :: k in live <==>
        || (k in was && k in wanted)
        || (exists l :: l in wanted && l !in was && k == Final(db.next, kept, l))
        || k == Triple(tx, ATTR_AT, Value(TAG_INSTANT, req.at))
        || (exists m :: m in req.meta && k == m.(e := tx))
  {
    hide Committing, Committed, Sound, Plan, Resolved, Final, ApplyAll, KeysOf, TxOf, Prepare, LiveOf, Install;
    var rows, was := LiveOf(db.table), Keys(LiveOf(db.table));
    var wanted, tx, kept := Wanted(schema, db, req.ops), TxOf(db, req, delta), Prepare(db, delta, req.claims).kept;
    var db' := Committed(schema, db, req, delta);
    CommitParts(schema, db, req, delta);
    CommitPlan(schema, db, req, delta);
    LiveInstalled(schema, db.table, db.nextRow, Gone(delta), KeysOf(db, req, delta), tx);
    forall k ensures k in Keys(LiveOf(db'.table)) <==>
      || (k in was && k in wanted)
      || (exists l :: l in wanted && l !in was && k == Final(db.next, kept, l))
      || k == Triple(tx, ATTR_AT, Value(TAG_INSTANT, req.at))
      || (exists m :: m in req.meta && k == m.(e := tx))
    {
      StaysExactly(schema, db, req, delta, k);
      ComesExactly(schema, db, req, delta, k);
      InstalledKeys(db, Gone(delta), KeysOf(db, req, delta), tx, k);
    }
  }

  lemma CommitPlan(schema: Schema, db: Db, req: Request, delta: Delta)
    requires Committing(schema, db, req, delta)
    ensures LiveRows(LiveOf(db.table)) && Net(LiveOf(db.table), delta) && Outcome(LiveOf(db.table), delta) == Wanted(schema, db, req.ops)
    ensures Resolved(db, req) && Sound(db)
  {
    hide Resolved, Plan, ApplyAll, Net;
    PlanRefines(schema, LiveOf(db.table), req.ops);
  }

  /** A live key after an installation is a spared one or a new one. */
  lemma InstalledKeys(db: Db, gone: set<Fact>, keys: seq<Triple>, tx: int, k: Triple)
    ensures k in Keys(Keep(db.table, set f | f in db.table && f.rx.None? && f !in gone) + Fresh(db.nextRow, keys, tx)) <==>
      (exists f :: f in db.table && f.rx.None? && f !in gone && f.key == k) || k in keys
  {
    var kept, added := Keep(db.table, set f | f in db.table && f.rx.None? && f !in gone), Fresh(db.nextRow, keys, tx);
    if f :| f in db.table && f.rx.None? && f !in gone && f.key == k {
      assert f in kept + added;
    }
    if k in keys {
      var i :| 0 <= i < |keys| && keys[i] == k;
      assert added[i] in kept + added && added[i].key == k;
    }
  }

  lemma StaysExactly(schema: Schema, db: Db, req: Request, delta: Delta, k: Triple)
    requires Committing(schema, db, req, delta)
    ensures (exists f :: f in db.table && f.rx.None? && f !in Gone(delta) && f.key == k) <==>
      k in Keys(LiveOf(db.table)) && k in Wanted(schema, db, req.ops)
  {
    hide Committing, ApplyAll, Plan, Resolved, Sound;
    var rows := LiveOf(db.table);
    CommitPlan(schema, db, req, delta);
    assert PlannedKeys(delta.assertions) !! Keys(rows);
    if f :| f in db.table && f.rx.None? && f !in Gone(delta) && f.key == k {
      assert f in rows;
      GoneExactly(rows, delta, f);
    }
    if k in Keys(rows) && k in Wanted(schema, db, req.ops) {
      var f :| f in rows && f.key == k;
      GoneExactly(rows, delta, f);
      assert f in db.table && f.rx.None? && f !in Gone(delta);
    }
  }

  lemma ComesExactly(schema: Schema, db: Db, req: Request, delta: Delta, k: Triple)
    requires Committing(schema, db, req, delta)
    ensures var tx, kept, was := TxOf(db, req, delta), Prepare(db, delta, req.claims).kept, Keys(LiveOf(db.table));
      k in KeysOf(db, req, delta) <==>
        || (exists l :: l in Wanted(schema, db, req.ops) && l !in was && k == Final(db.next, kept, l))
        || k == Triple(tx, ATTR_AT, Value(TAG_INSTANT, req.at))
        || (exists m :: m in req.meta && k == m.(e := tx))
  {
    hide Committing, ApplyAll, Plan, Sound, Resolved, Final, NewKeys, Prepare, LiveOf;
    var rows, tx, kept := LiveOf(db.table), TxOf(db, req, delta), Prepare(db, delta, req.claims).kept;
    CommitPlan(schema, db, req, delta);
    NewKeysFrom(db.next, tx, req.at, req.meta, Prepare(db, delta, req.claims));
    assert Prepare(db, delta, req.claims).delta == delta by { PreparedDelta(db, delta, req.claims); }
    MetaZero(db, req);
    KeysListed(db.next, kept, tx, req.at, req.meta, delta.assertions, KeysOf(db, req, delta), k);
    assert forall l :: l in Wanted(schema, db, req.ops) && l !in Keys(rows) <==> l in PlannedKeys(delta.assertions);
  }

  lemma MetaZero(db: Db, req: Request)
    requires Resolved(db, req)
    ensures forall m :: m in req.meta ==> m.e == 0
  {
  }

  lemma PreparedDelta(db: Db, delta: Delta, claims: seq<Claim>)
    ensures Prepare(db, delta, claims).delta == delta
  {
  }

  lemma KeysListed(first: int, kept: seq<int>, tx: int, at: int, meta: seq<Triple>, list: seq<Planned>, keys: seq<Triple>, k: Triple)
    requires |keys| == 1 + |meta| + |list| && keys[0] == Triple(tx, ATTR_AT, Value(TAG_INSTANT, at))
    requires forall i :: 0 <= i < |meta| ==> keys[1 + i] == OnTransaction(tx, meta[i])
    requires forall i :: 0 <= i < |list| ==> keys[1 + |meta| + i] == Final(first, kept, list[i].key)
    requires forall m :: m in meta ==> m.e == 0
    ensures k in keys <==>
      || (exists l :: l in PlannedKeys(list) && k == Final(first, kept, l))
      || k == Triple(tx, ATTR_AT, Value(TAG_INSTANT, at))
      || (exists m :: m in meta && k == m.(e := tx))
  {
    hide Final;
    if k in keys {
      var i :| 0 <= i < |keys| && keys[i] == k;
      if 0 < i <= |meta| {
        assert k == meta[i - 1].(e := tx) && meta[i - 1] in meta;
      } else if i > |meta| {
        var p := list[i - 1 - |meta|];
        assert p in list && p.key in PlannedKeys(list) && k == Final(first, kept, p.key);
      }
    }
    if l :| l in PlannedKeys(list) && k == Final(first, kept, l) {
      var p :| p in list && p.key == l;
      var i :| 0 <= i < |list| && list[i] == p;
      assert keys[1 + |meta| + i] == k;
    }
    if m :| m in meta && k == m.(e := tx) {
      var i :| 0 <= i < |meta| && meta[i] == m;
      assert keys[1 + i] == k;
    }
    assert keys[0] in keys;
  }

  /** The identities after a commit: the old ones, the event's own, and one per kept claim under the
      selector it was claimed for; an anonymous one is named after the event and its place. */
  lemma CommitNames(schema: Schema, db: Db, req: Request, delta: Delta)
    requires Committing(schema, db, req, delta)
    ensures var ids, tx, kept := Committed(schema, db, req, delta).ids, TxOf(db, req, delta), Prepare(db, delta, req.claims).kept;
      && tx == db.next + |kept|
      && (forall id :: id in ids <==> id in db.ids || db.next <= id <= tx)
      && (forall id :: id in db.ids ==> ids[id] == db.ids[id])
      && ids[tx] == Identity(Eid(req.uuid), tx)
      && forall i :: 0 <= i < |kept| ==>
           && 0 <= kept[i] - db.next < |req.claims|
           && ids[db.next + i] == Identity(Called(req.claims[kept[i] - db.next], req.uuid, i), tx)
  {
    hide Committing, Committed, Sound, Plan, Kept, KeptClaims, MentionedBy, PlannedList, NewIdentity;
    var mentioned := MentionedBy(PlannedList(delta.assertions));
    KeptExactly(db.next, req.claims, mentioned);
    CommittingSound(schema, db, req, delta);
    SoundIds(db);
    IdsCommitted(schema, db, req, delta);
    EventNamed(db.next, KeptClaims(db.next, req.claims, mentioned), req.uuid);
    var kept := Kept(db.next, req.claims, mentioned);
    forall i | 0 <= i < |kept| ensures db.next <= kept[i] < db.next + |req.claims| && NewIdentity(db.next, KeptClaims(db.next, req.claims, mentioned), req.uuid, db.next + i)
      == Identity(Called(req.claims[kept[i] - db.next], req.uuid, i), db.next + |kept|)
    {
      ClaimNamed(db.next, req.claims, mentioned, req.uuid, i);
    }
  }

  /** What an identity is called: as it was claimed, or after the event and its place. */
  function Called(claim: Claim, event: Uuid, place: nat): Selector {
    match claim
    case Named(text) => Name(text)
    case Imported(uuid) => Eid(uuid)
    case Anonymous => Eid(Derived(event, place))
  }

  lemma EventNamed(first: int, claims: seq<Claim>, event: Uuid)
    ensures NewIdentity(first, claims, event, first + |claims|) == Identity(Eid(event), first + |claims|)
  {
  }

  lemma ClaimNamed(first: int, claims: seq<Claim>, mentioned: set<int>, event: Uuid, i: nat)
    requires i < |Kept(first, claims, mentioned)|
    ensures var kept := Kept(first, claims, mentioned);
      && first <= kept[i] < first + |claims|
      && NewIdentity(first, KeptClaims(first, claims, mentioned), event, first + i) == Identity(Called(claims[kept[i] - first], event, i), first + |kept|)
  {
    KeptExactly(first, claims, mentioned);
    hide Kept, KeptClaims;
  }

  lemma IdsCommitted(schema: Schema, db: Db, req: Request, delta: Delta)
    ensures Committed(schema, db, req, delta).ids == db.ids + NewIdentities(db.next, Prepare(db, delta, req.claims).claims, req.uuid)
  {
    hide NewIdentities, NewKeys, Prepare, CreatedBy, ToTuples, AssertedBy, RetractedBy, Install, Garbage, TextRows, Hashes;
  }

  lemma SoundIds(db: Db)
    requires Sound(db)
    ensures forall id :: id in db.ids ==> id < db.next
  {
  }

  /** A fact as a record tells it. */
  function Told(ids: map<int, Identity>, k: Triple): Tuple
    requires k.e in ids && k.a in ids && (k.v.tag == TAG_REF ==> k.v.cell in ids)
  {
    Tuple(ids[k.e].selector, ids[k.a].selector, if k.v.tag == TAG_REF then Reference(ids[k.v.cell].selector) else Plain(k.v))
  }

  lemma ToldIs(ids: map<int, Identity>, k: Triple)
    requires k.e in ids && k.a in ids && (k.v.tag == TAG_REF ==> k.v.cell in ids)
    ensures ToTuple(ids, k) == Told(ids, k)
  {
  }

  /** The record of a commit tells the rows it asserted, but for the timestamps of the transaction,
      and the rows it retracted. */
  lemma RecordTells(db: Db, tx: int, t: Tuple)
    requires Sound(db)
    ensures t in ToTuples(db.ids, AssertedBy(db.table, tx)) <==>
      exists f :: f in db.table && f.tx == tx && !(f.key.e == tx && (f.key.a == ATTR_AT || f.key.a == ATTR_IMPORTED))
                  && Registered(db.ids, f.key) && t == Told(db.ids, f.key)
    ensures t in ToTuples(db.ids, RetractedBy(db.table, tx)) <==>
      exists f :: f in db.table && f.rx == Some(tx) && Registered(db.ids, f.key) && t == Told(db.ids, f.key)
  {
    hide Sound, ToTuple, Told;
    forall f | f in db.table ensures Registered(db.ids, f.key) && ToTuple(db.ids, f.key) == Told(db.ids, f.key) {
      SoundRow(db, f);
      assert f.key.e in Mentions(f.key) && f.key.a in Mentions(f.key) && (f.key.v.tag == TAG_REF ==> f.key.v.cell in Mentions(f.key));
      ToldIs(db.ids, f.key);
    }
    TuplesIn(db.ids, AssertedBy(db.table, tx), t);
    TuplesIn(db.ids, RetractedBy(db.table, tx), t);
  }

  predicate Registered(ids: map<int, Identity>, k: Triple) {
    k.e in ids && k.a in ids && (k.v.tag == TAG_REF ==> k.v.cell in ids)
  }

  lemma TuplesIn(ids: map<int, Identity>, rows: seq<Fact>, t: Tuple)
    ensures t in ToTuples(ids, rows) <==> exists f :: f in rows && t == ToTuple(ids, f.key)
  {
    hide ToTuple;
    if f :| f in rows && t == ToTuple(ids, f.key) {
      var i :| 0 <= i < |rows| && rows[i] == f;
      assert ToTuples(ids, rows)[i] == t;
    }
  }

  // ----- an excision -----

  /** What the erased entity leaves in a row. */
  predicate About(k: Triple, entity: int) {
    k.e == entity || k.a == entity || k.v == Value(TAG_REF, entity)
  }

  /** The record names the entity: as created, or in a fact. */
  ghost predicate Names(payload: Payload, who: Selector) {
    payload.Changes? && (
      || who in payload.created
      || exists t :: (t in payload.asserted || t in payload.retracted) && (t.e == who || t.a == who || t.v == Reference(who)))
  }

  /** The event has to forget: it asserted or retracted an erased row, or its record names the entity. */
  ghost predicate Forgets(db: Db, entity: int, ev: Event)
    requires entity in db.ids
  {
    || (exists f :: f in db.table && About(f.key, entity) && (f.tx == ev.tx || f.rx == Some(ev.tx)))
    || (ev.payload.Some? && Names(ev.payload.value, db.ids[entity].selector))
  }

  /** The rows after an excision: those that say nothing of the entity, and the two of its marker. */
  lemma ErasedRows(db: Db, ex: Excision, f: Fact)
    requires Excising(db, ex)
    ensures f in Erase(db, ex).table <==>
      || (f in db.table && !About(f.key, ex.entity))
      || f == Fact(db.nextRow, Triple(db.next, ATTR_AT, Value(TAG_INSTANT, ex.at)), db.next, None)
      || f == Fact(db.nextRow + 1, Triple(db.next, ATTR_EXCISED, Value(TAG_REF, ex.entity)), db.next, None)
  {
    hide Sound, Redact, RedactedTxs;
    EraseParts(db, ex);
    var added := Fresh(db.nextRow, MarkerKeys(db, ex), db.next);
    assert added == [added[0], added[1]];
  }

  /** The events after an excision: those that must forget are emptied, nothing else changes in
      them, and the new record lists the ids of the emptied ones. */
  lemma ErasedEvents(db: Db, ex: Excision)
    requires Excising(db, ex)
    ensures var events := Erase(db, ex).events;
      && |events| == |db.events| + 1
      && (forall i :: 0 <= i < |db.events| ==>
            events[i] == if Forgets(db, ex.entity, db.events[i]) then db.events[i].(payload := None) else db.events[i])
      && events[|db.events|].tx == db.next && events[|db.events|].uuid == ex.uuid && events[|db.events|].operation == ex.operation
      && events[|db.events|].payload.Some? && events[|db.events|].payload.value.Redaction?
      && events[|db.events|].payload.value.at == ex.at
      && forall uuid :: uuid in events[|db.events|].payload.value.redacts <==>
           exists ev :: ev in db.events && ev.uuid == uuid && Forgets(db, ex.entity, ev)
  {
    hide Sound, Forgets;
    var txs := RedactedTxs(db, ex.entity);
    forall ev | ev in db.events ensures ev.tx in txs <==> Forgets(db, ex.entity, ev) {
      ForgetsExactly(db, ex, ev);
    }
    EraseParts(db, ex);
    hide RedactedTxs;
    forall i | 0 <= i < |db.events|
      ensures Erase(db, ex).events[i] == if Forgets(db, ex.entity, db.events[i]) then db.events[i].(payload := None) else db.events[i]
    {
      assert db.events[i] in db.events;
      assert Redact(db.events, txs)[i] == if db.events[i].tx in txs then db.events[i].(payload := None) else db.events[i];
    }
  }

  lemma ForgetsExactly(db: Db, ex: Excision, ev: Event)
    requires Excising(db, ex) && ev in db.events
    ensures ev.tx in RedactedTxs(db, ex.entity) <==> Forgets(db, ex.entity, ev)
  {
    hide Sound, PayloadMentions, Names, About, Erased;
    var who := db.ids[ex.entity].selector;
    forall f ensures f in Erased(db.table, ex.entity) <==> f in db.table && About(f.key, ex.entity) {
      ErasedAre(db, ex, f);
    }
    forall other | other in db.events && other.tx == ev.tx ensures other == ev {
      OneEventPerTx(db, other, ev);
    }
    if ev.payload.Some? { MentionsAre(ev.payload.value, who); }
  }

  lemma ErasedAre(db: Db, ex: Excision, f: Fact)
    ensures f in Erased(db.table, ex.entity) <==> f in db.table && About(f.key, ex.entity)
  {
  }

  lemma OneEventPerTx(db: Db, ev: Event, ev': Event)
    requires Sound(db) && ev in db.events && ev' in db.events && ev.tx == ev'.tx
    ensures ev == ev'
  {
    var i :| 0 <= i < |db.events| && db.events[i] == ev;
    var j :| 0 <= j < |db.events| && db.events[j] == ev';
  }

  lemma MentionsAre(payload: Payload, who: Selector)
    ensures PayloadMentions(payload, who) <==> Names(payload, who)
  {
  }

  /** The text row belongs to a row about the entity. */
  ghost predicate IndexesErased(table: seq<Fact>, entity: int, t: TextRow) {
    exists f :: f in table && About(f.key, entity) && f.key.v.tag in {TAG_TEXT, TAG_TEXT_REF} && t == TextRow(f.id, f.key.v)
  }

  /** Some other row refers to the blob. */
  ghost predicate StillReferred(table: seq<Fact>, entity: int, blob: int) {
    exists f :: f in table && !About(f.key, entity) && f.key.v.tag in {TAG_VECTOR, TAG_TEXT_REF, TAG_BYTES_REF} && f.key.v.cell == blob
  }

  /** The derived tables after an excision: text rows of other facts, and blobs some row refers to. */
  lemma ErasedDerived(db: Db, ex: Excision)
    requires Excising(db, ex)
    ensures forall t :: t in Erase(db, ex).fts <==> t in db.fts && !IndexesErased(db.table, ex.entity, t)
    ensures forall b :: b in Erase(db, ex).blobs <==> b in db.blobs && StillReferred(db.table, ex.entity, b)
  {
    hide Sound, Redact, RedactedTxs;
  }

  // ----- replies -----

  /** How a request is answered once the checks that come first let it through. */
  lemma TransactExactly(schema: Schema, db: Db, req: Request)
    requires Sound(db) && Precheck(db.events, req.operation, req.guard).None?
    ensures var (db', reply) := Transact(schema, db, req);
      var plan := Plan(schema, LiveOf(db.table), req.ops);
      && (reply.Failed? ==> db' == db) && !reply.AlreadyApplied?
      && (plan.Err? ==> reply == Failed(plan.error))
      && (reply == Unchanged(Basis(db.events)) <==>
            && plan.Ok? && Wanted(schema, db, req.ops) == Keys(LiveOf(db.table))
            && !req.force && req.meta == [] && req.operation.None? && forall claim :: claim in req.claims ==> claim.Anonymous?)
      && (reply.Unchanged? ==> db' == db)
      && (plan.Ok? && reply.Failed? ==> reply.error == if TxOf(db, req, plan.value) >= MAX_ID then TooLarge else Conflict)
      && (reply.Applied? ==> plan.Ok? && reply == Applied(TxOf(db, req, plan.value), Basis(db.events)))
  {
    hide Sound, Commit, Precheck, Plan, SelectorsDistinct, NewIdentities;
    var plan := Plan(schema, LiveOf(db.table), req.ops);
    if plan.Ok? {
      NothingToDo(schema, db, req, plan.value);
    }
  }

  /** A delta is empty exactly if the operations leave the live facts as they are. */
  lemma NothingToDo(schema: Schema, db: Db, req: Request, delta: Delta)
    requires Sound(db) && Plan(schema, LiveOf(db.table), req.ops) == Ok(delta)
    ensures IsNoop(req, Prepare(db, delta, req.claims)) <==>
      && Wanted(schema, db, req.ops) == Keys(LiveOf(db.table))
      && !req.force && req.meta == [] && req.operation.None? && forall claim :: claim in req.claims ==> claim.Anonymous?
  {
    hide Plan, ApplyAll, Kept, KeptClaims, LiveOf, Net, Outcome;
    PlanRefines(schema, LiveOf(db.table), req.ops);
    EmptyDelta(LiveOf(db.table), delta);
    if delta.assertions == [] {
      assert MentionedBy(PlannedList(delta.assertions)) == {};
      NothingKept(db.next, req.claims);
    }
  }

  lemma EmptyDelta(rows: seq<Fact>, d: Delta)
    requires LiveRows(rows) && Net(rows, d)
    ensures Outcome(rows, d) == Keys(rows) <==> d.assertions == [] && d.retractions == []
  {
    if d.assertions != [] {
      var k := d.assertions[0].key;
      assert k in PlannedKeys(d.assertions) && k !in Keys(rows) && k in Outcome(rows, d);
    } else if d.retractions != [] {
      var f := d.retractions[0];
      assert f in d.retractions && f.key in Keys(d.retractions) && f.key in Keys(rows) && f.key !in Outcome(rows, d);
    }
  }

  lemma NothingKept(first: int, claims: seq<Claim>)
    ensures Kept(first, claims, {}) == [] <==> forall claim :: claim in claims ==> claim.Anonymous?
  {
    KeptExactly(first, claims, {});
    hide Kept, KeptClaims;
    var kept := Kept(first, claims, {});
    if claim :| claim in claims && !claim.Anonymous? {
      var i :| 0 <= i < |claims| && claims[i] == claim;
      assert first + i in kept;
    }
    if kept != [] {
      var claim := claims[kept[0] - first];
      assert kept[0] in kept && claim in claims && !claim.Anonymous?;
    }
  }
}
