/** Excision over runs: what an erasure removes stays removed, every emptied event is accounted
    for by a later redaction record, and every retained record is what would be exported again. */
module Audit {
  import opened Facts
  import opened Planner
  import opened Localization
  import opened Identities
  import opened History
  import opened Store
  import opened Soundness
  import opened Runs

  // ----- what an erasure removes -----

  function MarkerKey(tx: int, entity: int): Triple {
    Triple(tx, ATTR_EXCISED, Value(TAG_REF, entity))
  }

  /** Of what was recorded up to the excision `tx`, only its audit marker speaks of the entity,
      and no retained record mentions its selector. */
  ghost predicate Forgotten(db: Db, entity: int, selector: Selector, tx: int) {
    && (forall f :: f in db.table && f.tx <= tx && Speaks(f.key, entity) ==> f.key == MarkerKey(tx, entity))
    && (forall ev :: ev in db.events && ev.tx <= tx && ev.payload.Some? ==> !PayloadMentions(ev.payload.value, selector))
  }

  predicate RedactedFrom(was: Event, ev: Event, txs: set<int>) {
    ev == if was.tx in txs then was.(payload := None) else was
  }

  lemma RedactAt(events: seq<Event>, txs: set<int>, ev: Event)
    requires ev in Redact(events, txs)
    ensures exists was :: was in events && RedactedFrom(was, ev, txs)
  {
    var i :| 0 <= i < |events| && Redact(events, txs)[i] == ev;
    assert events[i] in events;
  }

  lemma EraseForgets(db: Db, ex: Excision)
    requires Excising(db, ex)
    ensures Forgotten(Erase(db, ex), ex.entity, SelectorOf(db.ids, ex.entity), db.next)
  {
    var db', selector, txs := Erase(db, ex), SelectorOf(db.ids, ex.entity), RedactedTxs(db, ex.entity);
    TxsBounded(db);
    forall f | f in db'.table && Speaks(f.key, ex.entity) ensures f.key == MarkerKey(db.next, ex.entity) {
      EraseRow(db, ex, f);
      assert ex.entity < db.next;
    }
    forall ev | ev in db'.events && ev.payload.Some? ensures !PayloadMentions(ev.payload.value, selector) {
      if ev in Redact(db.events, txs) {
        RedactAt(db.events, txs, ev);
      }
    }
  }

  lemma CommitForgotten(schema: Schema, db: Db, req: Request, delta: Delta, entity: int, selector: Selector, tx: int)
    requires Committing(schema, db, req, delta) && Forgotten(db, entity, selector, tx) && tx < db.next
    ensures Forgotten(Committed(schema, db, req, delta), entity, selector, tx)
  {
    var db' := Committed(schema, db, req, delta);
    CommitParts(schema, db, req, delta);
    RetractionsSpareReceipts(schema, db, req, delta);
    forall f | f in db'.table && f.tx <= tx && Speaks(f.key, entity) ensures f.key == MarkerKey(tx, entity) {
      var i := CommitRow(schema, db, req, delta, f);
    }
  }

  lemma EraseForgotten(db: Db, ex: Excision, entity: int, selector: Selector, tx: int)
    requires Forgotten(db, entity, selector, tx) && tx < db.next
    ensures Forgotten(Erase(db, ex), entity, selector, tx)
  {
    var db', txs := Erase(db, ex), RedactedTxs(db, ex.entity);
    forall f | f in db'.table && f.tx <= tx && Speaks(f.key, entity) ensures f.key == MarkerKey(tx, entity) {
      EraseRow(db, ex, f);
    }
    forall ev | ev in db'.events && ev.tx <= tx && ev.payload.Some? ensures !PayloadMentions(ev.payload.value, selector) {
      if ev in Redact(db.events, txs) {
        RedactAt(db.events, txs, ev);
      }
    }
  }

  lemma StepForgotten(schema: Schema, db: Db, step: Step, entity: int, selector: Selector, tx: int)
    requires Sound(db) && Admissible(db, step) && Forgotten(db, entity, selector, tx) && tx < db.next
    ensures var db' := Next(schema, db, step).0; Forgotten(db', entity, selector, tx) && tx < db'.next
  {
    var (db', reply) := Next(schema, db, step);
    StepCases(schema, db, step);
    StepIds(schema, db, step);
    hide Forgotten;
    if reply.Applied? && step.Write? {
      CommitForgotten(schema, db, step.req, DeltaOf(schema, db, step.req), entity, selector, tx);
    } else if reply.Applied? {
      EraseForgotten(db, step.ex, entity, selector, tx);
    }
  }

  lemma {:induction false} RunForgets(schema: Schema, dbs: seq<Db>, steps: seq<Step>, i: nat, j: nat,
                                      entity: int, selector: Selector, tx: int)
    requires IsRun(schema, dbs, steps) && i <= j < |dbs| && Forgotten(dbs[i], entity, selector, tx) && tx < dbs[i].next
    ensures Forgotten(dbs[j], entity, selector, tx) && tx < dbs[j].next
  {
    hide *;
    RunLength(schema, dbs, steps);
    if i < j {
      RunForgets(schema, dbs, steps, i, j - 1, entity, selector, tx);
      RunStep(schema, dbs, steps, j - 1);
      StepForgotten(schema, dbs[j - 1], steps[j - 1], entity, selector, tx);
    }
  }

  /** Excision is final: in every later state of the run, nothing recorded before it speaks of the
      entity except its audit marker, and no record kept from before mentions its selector. */
  lemma ErasureStays(schema: Schema, dbs: seq<Db>, steps: seq<Step>, i: nat, j: nat)
    requires IsRun(schema, dbs, steps) && i < j < |dbs| && i < |steps|
    requires steps[i].Erasure? && Next(schema, dbs[i], steps[i]).1.Applied?
    ensures var ex := steps[i].ex;
      Forgotten(dbs[j], ex.entity, SelectorOf(dbs[i].ids, ex.entity), Next(schema, dbs[i], steps[i]).1.tx)
  {
    hide Sound, Admissible, IsRun, Forgotten, Transact, Erase;
    RunStep(schema, dbs, steps, i);
    StepCases(schema, dbs[i], steps[i]);
    EraseForgets(dbs[i], steps[i].ex);
    EraseParts(dbs[i], steps[i].ex);
    RunForgets(schema, dbs, steps, i + 1, j, steps[i].ex.entity, SelectorOf(dbs[i].ids, steps[i].ex.entity), dbs[i].next);
  }

  // ----- the audit trail -----

  predicate IsRedaction(ev: Event) {
    ev.payload.Some? && ev.payload.value.Redaction?
  }

  /** A later redaction record lists the event. */
  ghost predicate ListedBy(ev: Event, record: Event) {
    IsRedaction(record) && ev.tx < record.tx && ev.uuid in record.payload.value.redacts
  }

  /** Every emptied event is listed by a later redaction record. */
  ghost predicate Accounted(events: seq<Event>) {
    forall ev :: ev in events && ev.payload.None? ==> exists record :: record in events && ListedBy(ev, record)
  }

  /** Every event a redaction record lists is an earlier one and empty. */
  ghost predicate Honest(events: seq<Event>) {
    forall record, uuid :: record in events && IsRedaction(record) && uuid in record.payload.value.redacts ==>
      EmptiedBefore(events, uuid, record.tx)
  }

  ghost predicate EmptiedBefore(events: seq<Event>, uuid: Uuid, tx: int) {
    exists ev :: ev in events && ev.uuid == uuid && ev.tx < tx && ev.payload.None?
  }

  ghost predicate HasMarker(table: seq<Fact>, tx: int) {
    exists f :: f in table && f.key.e == tx && f.key.a == ATTR_EXCISED && f.tx == tx && f.rx.None?
  }

  /** Redaction transactions have a live audit marker, a timestamp and nothing else. */
  ghost predicate Marked(db: Db) {
    && (forall ev :: ev in db.events && IsRedaction(ev) ==> HasMarker(db.table, ev.tx))
    && (forall ev, f :: ev in db.events && IsRedaction(ev) && f in db.table ==> OnlyMarks(ev, f))
  }

  predicate OnlyMarks(ev: Event, f: Fact) {
    && (f.tx == ev.tx ==> f.key.e == ev.tx && (f.key.a == ATTR_AT || f.key.a == ATTR_EXCISED))
    && f.rx != Some(ev.tx)
  }

  /** What every run keeps, whatever it excises: records list emptied events only, and each one
      retained has its marker. */
  ghost predicate Trailed(db: Db) {
    Honest(db.events) && Marked(db)
  }

  ghost predicate Audited(db: Db) {
    Accounted(db.events) && Trailed(db)
  }

  /** The audit marker of the record names the entity. */
  ghost predicate Names(db: Db, record: Event, entity: int) {
    exists f :: f in db.table && f.tx == record.tx && f.key.a == ATTR_EXCISED && RefersTo(f.key.v, entity)
  }

  /** No redaction record names the entity. */
  ghost predicate NotYetExcised(db: Db, entity: int) {
    forall ev, f :: ev in db.events && IsRedaction(ev) && f in db.table && f.tx == ev.tx && f.key.a == ATTR_EXCISED ==>
      !RefersTo(f.key.v, entity)
  }

  // ----- commits keep the audit -----

  lemma CommitEvents(schema: Schema, db: Db, req: Request, delta: Delta)
    ensures var events := Committed(schema, db, req, delta).events;
      && (forall ev :: ev in events <==> ev in db.events || ev == events[|db.events|])
      && |events| == |db.events| + 1 && events[|db.events|].payload.Some? && events[|db.events|].payload.value.Changes?
      && events[|db.events|].tx == TxOf(db, req, delta)
  {
    CommitParts(schema, db, req, delta);
    var events := Committed(schema, db, req, delta).events;
    assert events == db.events + [events[|db.events|]];
  }

  lemma CommitAudited(schema: Schema, db: Db, req: Request, delta: Delta)
    requires Committing(schema, db, req, delta) && Audited(db)
    ensures Audited(Committed(schema, db, req, delta))
  {
    hide Committing, Committed, Trailed;
    CommitEvents(schema, db, req, delta);
    CommitTrailed(schema, db, req, delta);
  }

  lemma CommitTrailed(schema: Schema, db: Db, req: Request, delta: Delta)
    requires Committing(schema, db, req, delta) && Trailed(db)
    ensures Trailed(Committed(schema, db, req, delta))
  {
    hide Committing, Committed, HasMarker, OnlyMarks;
    var db' := Committed(schema, db, req, delta);
    CommitEvents(schema, db, req, delta);
    assert Honest(db'.events) by {
      forall record, uuid | record in db'.events && IsRedaction(record) && uuid in record.payload.value.redacts
        ensures EmptiedBefore(db'.events, uuid, record.tx)
      {
        assert EmptiedBefore(db.events, uuid, record.tx);
      }
    }
    forall ev | ev in db'.events && IsRedaction(ev)
      ensures HasMarker(db'.table, ev.tx) && forall f :: f in db'.table ==> OnlyMarks(ev, f)
    {
      CommitMarks(schema, db, req, delta, ev);
    }
  }

  lemma CommitMarks(schema: Schema, db: Db, req: Request, delta: Delta, ev: Event)
    requires Committing(schema, db, req, delta) && ev in db.events && IsRedaction(ev) && Marked(db)
    ensures var table := Committed(schema, db, req, delta).table;
      HasMarker(table, ev.tx) && forall f :: f in table ==> OnlyMarks(ev, f)
  {
    hide Sound, Committed, Committing, OnlyMarks, HasMarker;
    var table := Committed(schema, db, req, delta).table;
    CommitKeepsMarker(schema, db, req, delta, ev);
    forall f | f in table ensures OnlyMarks(ev, f) {
      CommitOnlyMarks(schema, db, req, delta, ev, f);
    }
  }

  lemma CommitKeepsMarker(schema: Schema, db: Db, req: Request, delta: Delta, ev: Event)
    requires Committing(schema, db, req, delta) && ev in db.events && HasMarker(db.table, ev.tx)
    ensures HasMarker(Committed(schema, db, req, delta).table, ev.tx)
  {
    var tx := TxOf(db, req, delta);
    CommitParts(schema, db, req, delta);
    RetractionsSpareReceipts(schema, db, req, delta);
    hide Committing, Committed;
    assert ev.tx in Txs(db.events);
    var m :| m in db.table && m.key.e == ev.tx && m.key.a == ATTR_EXCISED && m.tx == ev.tx && m.rx.None?;
    RetiredRows(schema, db.table, Gone(delta), tx, m);
  }

  lemma CommitOnlyMarks(schema: Schema, db: Db, req: Request, delta: Delta, ev: Event, f: Fact)
    requires Committing(schema, db, req, delta) && ev in db.events && f in Committed(schema, db, req, delta).table
    requires forall g :: g in db.table ==> OnlyMarks(ev, g)
    ensures OnlyMarks(ev, f)
  {
    TxsBounded(db);
    hide Committing, Committed;
    assert ev.tx in Txs(db.events);
    var i := CommitRow(schema, db, req, delta, f);
  }

  // ----- erasures and the audit, exactly -----

  /** An emptied event stays accounted for: it is emptied again, or a record that is not itself
      emptied lists it. */
  ghost predicate StaysListed(db: Db, entity: int, ev: Event) {
    || ev.tx in RedactedTxs(db, entity)
    || exists record :: record in db.events && ListedBy(ev, record) && record.tx !in RedactedTxs(db, entity)
  }

  lemma EraseEvents(db: Db, ex: Excision)
    ensures var events, txs := Erase(db, ex).events, RedactedTxs(db, ex.entity);
      && (forall ev :: ev in events <==> ev in Redact(db.events, txs) || ev == ExcisionEvent(db, ex))
  {
    var events, txs := Erase(db, ex).events, RedactedTxs(db, ex.entity);
    assert events == Redact(db.events, txs) + [ExcisionEvent(db, ex)];
  }

  function ExcisionEvent(db: Db, ex: Excision): Event {
    var payload := Redaction(ex.at, UuidsOf(db.events, RedactedTxs(db, ex.entity)));
    Event(db.next, ex.uuid, Some(payload), ex.operation, payload)
  }

  lemma RedactHas(events: seq<Event>, txs: set<int>, was: Event)
    requires was in events
    ensures (if was.tx in txs then was.(payload := None) else was) in Redact(events, txs)
  {
    var i :| 0 <= i < |events| && events[i] == was;
    assert Redact(events, txs)[i] in Redact(events, txs);
  }

  lemma SameUuid(db: Db, ev: Event, ev': Event)
    requires Registry(db) && ev in db.events && ev' in db.events && ev.uuid == ev'.uuid
    ensures ev.tx == ev'.tx
  {
    assert db.ids[ev.tx].selector == db.ids[ev'.tx].selector;
  }

  /** A redaction record is emptied exactly when its audit marker names the erased entity. */
  lemma EmptiedExactly(db: Db, entity: int, record: Event)
    requires Sound(db) && Marked(db) && entity !in Txs(db.events) && entity > GENESIS_TX && record in db.events && IsRedaction(record)
    ensures record.tx in RedactedTxs(db, entity) <==> Names(db, record, entity)
  {
    hide Sound, Timeline, Registry, ReceiptsKept;
    SoundParts(db);
    if f :| f in db.table && f.tx == record.tx && f.key.a == ATTR_EXCISED && RefersTo(f.key.v, entity) {
      assert f in Erased(db.table, entity);
    } else {
      forall f | f in Erased(db.table, entity) ensures f.tx != record.tx && f.rx != Some(record.tx) {
        MarkerSpeaksOfOthers(db, entity, record, f);
      }
      forall ev | ev in db.events && ev.tx == record.tx ensures ev == record {
        SameTx(db, ev, record);
      }
      NotRedacted(db, entity, record.tx);
    }
  }

  /** Erasures and the audit, exactly: after an erasure every emptied event is listed by a later
      record if and only if each one that was empty before, and is not emptied again, is listed by
      a record whose marker does not name the erased entity. */
  lemma AuditKeptExactly(db: Db, ex: Excision)
    requires Excising(db, ex) && Audited(db)
    ensures Accounted(Erase(db, ex).events) <==>
      (forall ev :: ev in db.events && ev.payload.None? && ev.tx !in RedactedTxs(db, ex.entity) ==>
         exists record :: record in db.events && ListedBy(ev, record) && !Names(db, record, ex.entity))
  {
    hide RedactedTxs, Honest, Marked, Sound, Names, Accounted, SelectorsDistinct, ListedBy;
    forall record | record in db.events && IsRedaction(record)
      ensures record.tx in RedactedTxs(db, ex.entity) <==> Names(db, record, ex.entity)
    {
      EmptiedExactly(db, ex.entity, record);
    }
    ListedIsRedaction();
    StaysListedExactly(db, ex);
  }

  lemma ListedIsRedaction()
    ensures forall ev, record :: ListedBy(ev, record) ==> IsRedaction(record)
  {
  }

  lemma StaysListedExactly(db: Db, ex: Excision)
    requires Excising(db, ex)
    ensures Accounted(Erase(db, ex).events) <==> forall ev :: ev in db.events && ev.payload.None? ==> StaysListed(db, ex.entity, ev)
  {
    hide Sound, RedactedTxs, StaysListed, Accounted;
    SoundParts(db);
    if forall ev :: ev in db.events && ev.payload.None? ==> StaysListed(db, ex.entity, ev) {
      StaysAccounted(db, ex);
    }
    if Accounted(Erase(db, ex).events) {
      forall ev | ev in db.events && ev.payload.None? ensures StaysListed(db, ex.entity, ev) {
        StillListed(db, ex, ev);
      }
    }
  }

  lemma StaysAccounted(db: Db, ex: Excision)
    requires Timeline(db) && forall ev :: ev in db.events && ev.payload.None? ==> StaysListed(db, ex.entity, ev)
    ensures Accounted(Erase(db, ex).events)
  {
    hide RedactedTxs, StaysListed, Erase;
    var events, txs := Erase(db, ex).events, RedactedTxs(db, ex.entity);
    EraseEvents(db, ex);
    forall ev | ev in events && ev.payload.None? ensures exists record :: record in events && ListedBy(ev, record) {
      RedactAt(db.events, txs, ev);
      var was :| was in db.events && RedactedFrom(was, ev, txs);
      NowListed(db, ex, was, ev);
    }
  }

  lemma StillListed(db: Db, ex: Excision, ev: Event)
    requires Registry(db) && Accounted(Erase(db, ex).events) && ev in db.events && ev.payload.None?
    ensures StaysListed(db, ex.entity, ev)
  {
    hide RedactedTxs, StaysListed, Erase, Registry;
    var events, txs := Erase(db, ex).events, RedactedTxs(db, ex.entity);
    EraseEvents(db, ex);
    RedactHas(db.events, txs, ev);
    assert ev.(payload := None) == ev && ev in events;
    var record :| record in events && ListedBy(ev, record);
    WasListed(db, ex, ev, record);
  }

  lemma SoundParts(db: Db)
    requires Sound(db)
    ensures Timeline(db) && Registry(db) && ReceiptsKept(db)
  {
  }

  lemma NowListed(db: Db, ex: Excision, was: Event, ev: Event)
    requires Timeline(db) && was in db.events && RedactedFrom(was, ev, RedactedTxs(db, ex.entity)) && ev.payload.None?
    requires was.payload.None? ==> StaysListed(db, ex.entity, was)
    ensures exists record :: record in Erase(db, ex).events && ListedBy(ev, record)
  {
    hide RedactedTxs;
    var txs := RedactedTxs(db, ex.entity);
    EraseEvents(db, ex);
    TxsBounded(db);
    assert was.tx in Txs(db.events);
    if was.tx in txs {
      assert ListedBy(ev, ExcisionEvent(db, ex));
    } else {
      var record :| record in db.events && ListedBy(was, record) && record.tx !in txs;
      RedactHas(db.events, txs, record);
    }
  }

  lemma WasListed(db: Db, ex: Excision, ev: Event, record: Event)
    requires Registry(db) && ev in db.events && record in Erase(db, ex).events && ListedBy(ev, record)
    ensures StaysListed(db, ex.entity, ev)
  {
    hide RedactedTxs;
    var txs := RedactedTxs(db, ex.entity);
    EraseEvents(db, ex);
    if record == ExcisionEvent(db, ex) {
      var other :| other in db.events && other.tx in txs && other.uuid == ev.uuid;
      SameUuid(db, ev, other);
    } else {
      RedactAt(db.events, txs, record);
      var was :| was in db.events && RedactedFrom(was, record, txs);
    }
  }

  // ----- erasing an entity for the first time -----

  lemma NotRedacted(db: Db, entity: int, tx: int)
    requires forall f :: f in Erased(db.table, entity) ==> f.tx != tx && f.rx != Some(tx)
    requires forall ev :: ev in db.events && ev.tx == tx && ev.payload.Some? ==> !PayloadMentions(ev.payload.value, SelectorOf(db.ids, entity))
    ensures tx !in RedactedTxs(db, entity)
  {
  }

  /** The first excision of an entity empties no redaction record. */
  lemma RecordsRetained(db: Db, entity: int, record: Event)
    requires Sound(db) && Marked(db) && NotYetExcised(db, entity)
    requires entity !in Txs(db.events) && entity > GENESIS_TX && record in db.events && IsRedaction(record)
    ensures record.tx !in RedactedTxs(db, entity)
  {
    hide Sound, RedactedTxs, Marked;
    EmptiedExactly(db, entity, record);
  }

  lemma MarkerSpeaksOfOthers(db: Db, entity: int, record: Event, f: Fact)
    requires ReceiptsKept(db) && Marked(db) && entity !in Txs(db.events) && entity > GENESIS_TX
    requires record in db.events && IsRedaction(record) && !Names(db, record, entity) && f in Erased(db.table, entity)
    ensures f.tx != record.tx && f.rx != Some(record.tx)
  {
    assert record.tx in Txs(db.events) && OnlyMarks(record, f);
    assert f.key.e == record.tx ==> OwnRow(f);
  }

  lemma SameTx(db: Db, ev: Event, ev': Event)
    requires Timeline(db) && ev in db.events && ev' in db.events && ev.tx == ev'.tx
    ensures ev == ev'
  {
    var i :| 0 <= i < |db.events| && db.events[i] == ev;
    var j :| 0 <= j < |db.events| && db.events[j] == ev';
    assert !(i < j) && !(j < i);
  }

  lemma EraseAccounted(db: Db, ex: Excision)
    requires Excising(db, ex) && Audited(db) && NotYetExcised(db, ex.entity)
    ensures Accounted(Erase(db, ex).events)
  {
    hide Sound, RedactedTxs, Marked, NotYetExcised;
    StaysListedExactly(db, ex);
    forall ev | ev in db.events && ev.payload.None? ensures StaysListed(db, ex.entity, ev) {
      var record :| record in db.events && ListedBy(ev, record);
      RecordsRetained(db, ex.entity, record);
    }
  }

  lemma EraseHonest(db: Db, ex: Excision)
    requires Excising(db, ex) && Honest(db.events)
    ensures Honest(Erase(db, ex).events)
  {
    hide Sound, RedactedTxs;
    var events, txs := Erase(db, ex).events, RedactedTxs(db, ex.entity);
    EraseEvents(db, ex);
    SoundParts(db);
    TxsBounded(db);
    forall record, uuid | record in events && IsRedaction(record) && uuid in record.payload.value.redacts
      ensures EmptiedBefore(events, uuid, record.tx)
    {
      if record == ExcisionEvent(db, ex) {
        var ev :| ev in db.events && ev.tx in txs && ev.uuid == uuid;
        assert ev.tx in Txs(db.events);
        RedactHas(db.events, txs, ev);
      } else {
        RedactAt(db.events, txs, record);
        var was :| was in db.events && RedactedFrom(was, record, txs);
        assert EmptiedBefore(db.events, uuid, record.tx);
        var ev :| ev in db.events && ev.uuid == uuid && ev.tx < record.tx && ev.payload.None?;
        RedactHas(db.events, txs, ev);
        assert ev.(payload := None) == ev;
      }
    }
  }

  lemma EraseMarks(db: Db, ex: Excision, ev: Event)
    requires Excising(db, ex) && Marked(db) && ev in Erase(db, ex).events && IsRedaction(ev)
    ensures HasMarker(Erase(db, ex).table, ev.tx) && forall f :: f in Erase(db, ex).table ==> OnlyMarks(ev, f)
  {
    hide Sound, Erase, RedactedTxs, Marked, SelectorsDistinct;
    var db', txs := Erase(db, ex), RedactedTxs(db, ex.entity);
    EraseEvents(db, ex);
    if ev == ExcisionEvent(db, ex) {
      NewMarks(db, ex);
    } else {
      RedactAt(db.events, txs, ev);
      RetainedMarker(db, ex, ev);
      RetainedMarks(db, ex, ev);
    }
  }

  lemma NewMarks(db: Db, ex: Excision)
    requires Sound(db)
    ensures HasMarker(Erase(db, ex).table, db.next) && forall f :: f in Erase(db, ex).table ==> OnlyMarks(ExcisionEvent(db, ex), f)
  {
    hide Sound, Erase, RedactedTxs;
    var db', ev := Erase(db, ex), ExcisionEvent(db, ex);
    EraseParts(db, ex);
    var m := Fresh(db.nextRow, MarkerKeys(db, ex), db.next)[1];
    assert m in db'.table && m.key.e == ev.tx && m.tx == ev.tx;
    forall f | f in db'.table ensures OnlyMarks(ev, f) {
      EraseRow(db, ex, f);
      if f in db.table { SoundRow(db, f); }
    }
  }

  lemma RetainedMarks(db: Db, ex: Excision, ev: Event)
    requires Sound(db) && Marked(db) && ev in db.events && IsRedaction(ev)
    ensures forall f :: f in Erase(db, ex).table ==> OnlyMarks(ev, f)
  {
    hide Sound, Erase;
    SoundParts(db);
    EventBefore(db, ev);
    forall f | f in Erase(db, ex).table ensures OnlyMarks(ev, f) {
      EraseRow(db, ex, f);
    }
  }

  lemma RetainedMarker(db: Db, ex: Excision, ev: Event)
    requires Marked(db) && ev in db.events && IsRedaction(ev) && ev.tx !in RedactedTxs(db, ex.entity)
    ensures HasMarker(Erase(db, ex).table, ev.tx)
  {
    EraseParts(db, ex);
    var m :| m in db.table && m.key.e == ev.tx && m.key.a == ATTR_EXCISED && m.tx == ev.tx && m.rx.None?;
    assert m in Erased(db.table, ex.entity) ==> m.tx in RedactedTxs(db, ex.entity);
    assert m in Remaining(db.table, ex.entity);
  }

  lemma EraseAudited(db: Db, ex: Excision)
    requires Excising(db, ex) && Audited(db) && NotYetExcised(db, ex.entity)
    ensures Audited(Erase(db, ex))
  {
    hide Sound, RedactedTxs, NotYetExcised, Trailed, Accounted;
    EraseAccounted(db, ex);
    EraseTrailed(db, ex);
  }

  lemma EraseTrailed(db: Db, ex: Excision)
    requires Excising(db, ex) && Trailed(db)
    ensures Trailed(Erase(db, ex))
  {
    hide Sound, RedactedTxs, HasMarker, Honest;
    EraseHonest(db, ex);
    forall ev | ev in Erase(db, ex).events && IsRedaction(ev)
      ensures HasMarker(Erase(db, ex).table, ev.tx) && forall f :: f in Erase(db, ex).table ==> OnlyMarks(ev, f)
    {
      EraseMarks(db, ex, ev);
    }
  }

  /** The step does not excise an entity a second time. */
  ghost predicate ExcisesOnce(db: Db, step: Step) {
    step.Erasure? ==> NotYetExcised(db, step.ex.entity)
  }

  lemma StepAudited(schema: Schema, db: Db, step: Step)
    requires Sound(db) && Admissible(db, step) && Audited(db) && ExcisesOnce(db, step)
    ensures Audited(Next(schema, db, step).0)
  {
    var (db', reply) := Next(schema, db, step);
    StepCases(schema, db, step);
    hide Audited;
    if reply.Applied? && step.Write? {
      CommitAudited(schema, db, step.req, DeltaOf(schema, db, step.req));
    } else if reply.Applied? {
      EraseAudited(db, step.ex);
    }
  }

  /** The audit holds in every state of every run that excises no entity twice: emptied events are
      exactly those that later redaction records list, and each record has its live marker. */
  lemma {:induction false} RunAudited(schema: Schema, dbs: seq<Db>, steps: seq<Step>, i: nat)
    requires IsRun(schema, dbs, steps) && i < |dbs| && Audited(dbs[0])
    requires forall j :: 0 <= j < |steps| < |dbs| ==> ExcisesOnce(dbs[j], steps[j])
    ensures Audited(dbs[i])
  {
    hide *;
    RunLength(schema, dbs, steps);
    if i > 0 {
      RunAudited(schema, dbs, steps, i - 1);
      RunStep(schema, dbs, steps, i - 1);
      StepAudited(schema, dbs[i - 1], steps[i - 1]);
    }
  }

  lemma StepTrailed(schema: Schema, db: Db, step: Step)
    requires Sound(db) && Admissible(db, step) && Trailed(db)
    ensures Trailed(Next(schema, db, step).0)
  {
    var (db', reply) := Next(schema, db, step);
    StepCases(schema, db, step);
    hide Trailed;
    if reply.Applied? && step.Write? {
      CommitTrailed(schema, db, step.req, DeltaOf(schema, db, step.req));
    } else if reply.Applied? {
      EraseTrailed(db, step.ex);
    }
  }

  /** In every run, whatever it excises, records list emptied events only and have their markers. */
  lemma {:induction false} RunTrailed(schema: Schema, dbs: seq<Db>, steps: seq<Step>, i: nat)
    requires IsRun(schema, dbs, steps) && i < |dbs| && Trailed(dbs[0])
    ensures Trailed(dbs[i])
  {
    hide *;
    RunLength(schema, dbs, steps);
    if i > 0 {
      RunTrailed(schema, dbs, steps, i - 1);
      RunStep(schema, dbs, steps, i - 1);
      StepTrailed(schema, dbs[i - 1], steps[i - 1]);
    }
  }

  // ----- the excluded run -----

  /** The event is empty, only the record of `tx` may list it, and only a marker of `entity` can
      have been written by `tx`. */
  ghost predicate HangsOn(db: Db, ev: Event, tx: int, entity: int) {
    && ev in db.events && ev.payload.None? && ev.tx < tx < db.next && tx in Txs(db.events)
    && (forall record :: record in db.events && IsRedaction(record) && ev.uuid in record.payload.value.redacts ==> record.tx == tx)
    && (forall f :: f in db.table && f.tx == tx && f.key.a == ATTR_EXCISED ==> RefersTo(f.key.v, entity))
  }

  lemma FirstHangs(db: Db, ex: Excision, ev: Event)
    requires Excising(db, ex) && Honest(db.events) && ev in db.events && ev.payload.Some? && ev.tx in RedactedTxs(db, ex.entity)
    ensures HangsOn(Erase(db, ex), ev.(payload := None), db.next, ex.entity)
  {
    hide Sound, RedactedTxs, Registry, Timeline, ReceiptsKept;
    var db', txs, empty := Erase(db, ex), RedactedTxs(db, ex.entity), ev.(payload := None);
    SoundParts(db);
    EraseEvents(db, ex);
    EraseParts(db, ex);
    EraseTimeline(db, ex);
    RedactHas(db.events, txs, ev);
    EventBefore(db, ev);
    forall record | record in db'.events && IsRedaction(record) && ev.uuid in record.payload.value.redacts ensures record.tx == db.next {
      if record in Redact(db.events, txs) {
        RedactAt(db.events, txs, record);
        RetainedUnlisted(db, ev, record);
      }
    }
    forall f | f in db'.table && f.tx == db.next && f.key.a == ATTR_EXCISED ensures RefersTo(f.key.v, ex.entity) {
      EraseRow(db, ex, f);
      if f in db.table { SoundRow(db, f); }
    }
  }

  lemma EventBefore(db: Db, ev: Event)
    requires Timeline(db) && ev in db.events
    ensures ev.tx in Txs(db.events) && GENESIS_TX <= ev.tx < db.next
  {
    TxsBounded(db);
  }

  /** A retained event is listed by no record. */
  lemma RetainedUnlisted(db: Db, ev: Event, record: Event)
    requires Timeline(db) && Registry(db) && Honest(db.events) && ev in db.events && ev.payload.Some?
    requires record in db.events && IsRedaction(record)
    ensures ev.uuid !in record.payload.value.redacts
  {
    hide Timeline, Registry;
    if ev.uuid in record.payload.value.redacts {
      assert EmptiedBefore(db.events, ev.uuid, record.tx);
      var other :| other in db.events && other.uuid == ev.uuid && other.tx < record.tx && other.payload.None?;
      SameUuid(db, ev, other);
      SameTx(db, ev, other);
    }
  }

  lemma CommitHangs(schema: Schema, db: Db, req: Request, delta: Delta, ev: Event, tx: int, entity: int)
    requires Committing(schema, db, req, delta) && HangsOn(db, ev, tx, entity)
    ensures HangsOn(Committed(schema, db, req, delta), ev, tx, entity)
  {
    hide Committing, Committed;
    var db' := Committed(schema, db, req, delta);
    CommitEvents(schema, db, req, delta);
    CommitParts(schema, db, req, delta);
    IdsBelow(db, req, delta) by { CommittingSound(schema, db, req, delta); }
    assert tx in Txs(db'.events) by { var e :| e in db.events && e.tx == tx; assert e in db'.events; }
    forall f | f in db'.table && f.tx == tx && f.key.a == ATTR_EXCISED ensures RefersTo(f.key.v, entity) {
      var i := CommitRow(schema, db, req, delta, f);
    }
  }

  lemma EraseHangs(db: Db, ex: Excision, ev: Event, tx: int, entity: int)
    requires Excising(db, ex) && HangsOn(db, ev, tx, entity) && ev.tx !in RedactedTxs(db, ex.entity)
    ensures HangsOn(Erase(db, ex), ev, tx, entity)
  {
    hide Sound, RedactedTxs, Registry, Timeline, ReceiptsKept;
    var db', txs := Erase(db, ex), RedactedTxs(db, ex.entity);
    SoundParts(db);
    EraseEvents(db, ex);
    EraseParts(db, ex);
    EraseTimeline(db, ex);
    RedactHas(db.events, txs, ev);
    forall record | record in db'.events && IsRedaction(record) && ev.uuid in record.payload.value.redacts ensures record.tx == tx {
      if record in Redact(db.events, txs) {
        RedactAt(db.events, txs, record);
      } else {
        var other :| other in db.events && other.tx in txs && other.uuid == ev.uuid;
        SameUuid(db, ev, other);
      }
    }
    forall f | f in db'.table && f.tx == tx && f.key.a == ATTR_EXCISED ensures RefersTo(f.key.v, entity) {
      EraseRow(db, ex, f);
    }
  }

  /** The step does not empty the event once more. */
  ghost predicate Spares(schema: Schema, db: Db, step: Step, tx: int) {
    step.Erasure? && Next(schema, db, step).1.Applied? ==> tx !in RedactedTxs(db, step.ex.entity)
  }

  lemma StepHangs(schema: Schema, db: Db, step: Step, ev: Event, tx: int, entity: int)
    requires Sound(db) && Admissible(db, step) && HangsOn(db, ev, tx, entity) && Spares(schema, db, step, ev.tx)
    ensures HangsOn(Next(schema, db, step).0, ev, tx, entity)
  {
    var (db', reply) := Next(schema, db, step);
    StepCases(schema, db, step);
    hide HangsOn, RedactedTxs;
    if reply.Applied? && step.Write? {
      CommitHangs(schema, db, step.req, DeltaOf(schema, db, step.req), ev, tx, entity);
    } else if reply.Applied? {
      EraseHangs(db, step.ex, ev, tx, entity);
    }
  }

  lemma {:induction false} RunHangs(schema: Schema, dbs: seq<Db>, steps: seq<Step>, i: nat, j: nat, ev: Event, tx: int, entity: int)
    requires IsRun(schema, dbs, steps) && i <= j < |dbs| && HangsOn(dbs[i], ev, tx, entity)
    requires forall k :: i <= k < j && k < |steps| ==> Spares(schema, dbs[k], steps[k], ev.tx)
    ensures HangsOn(dbs[j], ev, tx, entity)
  {
    hide *;
    RunLength(schema, dbs, steps);
    if i < j {
      RunHangs(schema, dbs, steps, i, j - 1, ev, tx, entity);
      RunStep(schema, dbs, steps, j - 1);
      StepHangs(schema, dbs[j - 1], steps[j - 1], ev, tx, entity);
    }
  }

  /** Erasing the entity again leaves the event empty and unlisted. */
  lemma HangingLost(db: Db, ex: Excision, ev: Event, tx: int, selector: Selector)
    requires Excising(db, ex) && Marked(db) && HangsOn(db, ev, tx, ex.entity) && Forgotten(db, ex.entity, selector, tx)
    ensures !Accounted(Erase(db, ex).events)
  {
    hide Sound, RedactedTxs, Accounted, Names, Timeline, Registry, ReceiptsKept;
    SoundParts(db);
    assert ev.tx !in RedactedTxs(db, ex.entity) by {
      forall f | f in Erased(db.table, ex.entity) ensures f.tx != ev.tx && f.rx != Some(ev.tx) {
        LaterRow(db, ex, f, tx, selector);
      }
      forall e | e in db.events && e.tx == ev.tx ensures e == ev {
        SameTx(db, e, ev);
      }
      NotRedacted(db, ex.entity, ev.tx);
    }
    forall record | record in db.events && ListedBy(ev, record) ensures record.tx in RedactedTxs(db, ex.entity) {
      MarkerNames(db, ex.entity, record, tx);
      EmptiedExactly(db, ex.entity, record);
    }
    StaysListedExactly(db, ex);
    assert !StaysListed(db, ex.entity, ev);
  }

  lemma LaterRow(db: Db, ex: Excision, f: Fact, tx: int, selector: Selector)
    requires Sound(db) && tx in Txs(db.events) && f in Erased(db.table, ex.entity) && Forgotten(db, ex.entity, selector, tx)
    ensures f.tx >= tx && (f.rx.Some? ==> f.rx.value > tx)
  {
    SoundRow(db, f);
  }

  lemma MarkerNames(db: Db, entity: int, record: Event, tx: int)
    requires Marked(db) && record in db.events && IsRedaction(record) && record.tx == tx
    requires forall f :: f in db.table && f.tx == tx && f.key.a == ATTR_EXCISED ==> RefersTo(f.key.v, entity)
    ensures Names(db, record, entity)
  {
    assert HasMarker(db.table, record.tx);
  }

  /** Excising an entity a second time loses the audit of the first, whatever the run does in
      between: an event that the first excision emptied ends up empty without any record, unless
      another excision on the way emptied it once more. */
  lemma SecondExcisionLosesAudit(schema: Schema, dbs: seq<Db>, steps: seq<Step>, i: nat, j: nat, ev: Event)
    requires IsRun(schema, dbs, steps) && Trailed(dbs[0]) && i < j < |steps| < |dbs|
    requires steps[i].Erasure? && Next(schema, dbs[i], steps[i]).1.Applied?
    requires steps[j].Erasure? && Next(schema, dbs[j], steps[j]).1.Applied? && steps[j].ex.entity == steps[i].ex.entity
    requires ev in dbs[i].events && ev.payload.Some? && ev.tx in RedactedTxs(dbs[i], steps[i].ex.entity)
    requires forall k :: i < k < j ==> Spares(schema, dbs[k], steps[k], ev.tx)
    ensures !Accounted(dbs[j + 1].events)
  {
    hide *;
    var ex, empty := steps[i].ex, ev.(payload := None);
    RunStep(schema, dbs, steps, i);
    RunStep(schema, dbs, steps, j);
    AppliedErasure(schema, dbs[i], steps[i]);
    AppliedErasure(schema, dbs[j], steps[j]);
    RunTrailed(schema, dbs, steps, i);
    RunTrailed(schema, dbs, steps, j);
    TrailedParts(dbs[i]);
    TrailedParts(dbs[j]);
    FirstHangs(dbs[i], ex, ev);
    RunHangs(schema, dbs, steps, i + 1, j, empty, dbs[i].next, ex.entity);
    ErasureStays(schema, dbs, steps, i, j);
    HangingLost(dbs[j], steps[j].ex, empty, dbs[i].next, SelectorOf(dbs[i].ids, ex.entity));
  }

  lemma AppliedErasure(schema: Schema, db: Db, step: Step)
    requires Sound(db) && Admissible(db, step) && step.Erasure? && Next(schema, db, step).1.Applied?
    ensures Excising(db, step.ex) && Next(schema, db, step) == (Erase(db, step.ex), Applied(db.next, Basis(db.events)))
  {
    hide Sound, Transact;
    StepCases(schema, db, step);
  }

  lemma TrailedParts(db: Db)
    requires Trailed(db)
    ensures Honest(db.events) && Marked(db)
  {
  }

  // ----- the inspection -----

  datatype Problem =
    | StillHasData(target: Uuid)
    | NotPrior(redactor: int, target: Uuid)
    | Unaudited(target: Uuid)
    | NoMarker(redactor: int)
    | BadHash(tx: int)
    | WrongTime(tx: int)
    | Differs(tx: int)

  function Targets(ev: Event): set<Uuid> {
    if IsRedaction(ev) then ev.payload.value.redacts else {}
  }

  /** The emptied events by id. */
  ghost predicate EmptyOf(events: seq<Event>, empty: map<Uuid, int>) {
    && (forall uuid :: uuid in empty ==> exists ev :: ev in events && ev.uuid == uuid && ev.payload.None?)
    && (forall ev :: ev in events && ev.payload.None? ==> ev.uuid in empty && empty[ev.uuid] == ev.tx)
  }

  ghost predicate TargetsEmpty(empty: map<Uuid, int>, records: seq<Event>) {
    forall record, uuid :: record in records && uuid in Targets(record) ==> uuid in empty && empty[uuid] < record.tx
  }

  ghost predicate AllTargeted(empty: map<Uuid, int>, records: seq<Event>) {
    forall uuid :: uuid in empty ==> exists record :: record in records && uuid in Targets(record)
  }

  lemma HonestTargets(events: seq<Event>, empty: map<Uuid, int>, records: seq<Event>)
    requires EmptyOf(events, empty) && Honest(events) && forall ev :: ev in records ==> ev in events && IsRedaction(ev)
    ensures TargetsEmpty(empty, records)
  {
    forall record, uuid | record in records && uuid in Targets(record) ensures uuid in empty && empty[uuid] < record.tx {
      assert EmptiedBefore(events, uuid, record.tx);
    }
  }

  lemma AccountedTargets(events: seq<Event>, empty: map<Uuid, int>, records: seq<Event>)
    requires EmptyOf(events, empty) && Accounted(events) && forall ev :: ev in events && IsRedaction(ev) ==> ev in records
    ensures AllTargeted(empty, records)
  {
    forall uuid | uuid in empty ensures exists record :: record in records && uuid in Targets(record) {
      var ev :| ev in events && ev.uuid == uuid && ev.payload.None?;
      var record :| record in events && ListedBy(ev, record);
      assert record in records;
    }
  }

  lemma ScanShowsTrail(events: seq<Event>, empty: map<Uuid, int>, records: seq<Event>)
    requires EmptyOf(events, empty) && forall ev :: ev in records <==> ev in events && IsRedaction(ev)
    requires TargetsEmpty(empty, records) && AllTargeted(empty, records)
    ensures Honest(events) && Accounted(events)
  {
    forall record, uuid | record in events && IsRedaction(record) && uuid in record.payload.value.redacts
      ensures EmptiedBefore(events, uuid, record.tx)
    {
      assert record in records && uuid in Targets(record);
      assert uuid in empty;
      var ev :| ev in events && ev.uuid == uuid && ev.payload.None?;
    }
    forall ev | ev in events && ev.payload.None? ensures exists record :: record in events && ListedBy(ev, record) {
      assert ev.uuid in empty;
      var record :| record in records && ev.uuid in Targets(record);
      assert ListedBy(ev, record);
    }
  }

  /** Every listed target is empty and earlier than the record. */
  method TargetProblems(empty: map<Uuid, int>, records: seq<Event>) returns (problems: seq<Problem>)
    ensures problems == [] <==> TargetsEmpty(empty, records)
  {
    problems := [];
    for i := 0 to |records|
      invariant problems == [] <==> TargetsEmpty(empty, records[..i])
    {
      var record := records[i];
      assert records[..i + 1] == records[..i] + [record] && record in records;
      var more := RecordProblems(empty, Targets(record), record.tx);
      problems := problems + more;
    }
    assert records[..|records|] == records;
  }

  method RecordProblems(empty: map<Uuid, int>, targets: set<Uuid>, tx: int) returns (problems: seq<Problem>)
    ensures problems == [] <==> forall uuid :: uuid in targets ==> uuid in empty && empty[uuid] < tx
  {
    problems := [];
    var rest := targets;
    while rest != {}
      invariant rest <= targets
      invariant problems == [] <==> forall uuid :: uuid in targets && uuid !in rest ==> uuid in empty && empty[uuid] < tx
      decreases |rest|
    {
      var uuid: Uuid :| uuid in rest;
      rest := rest - {uuid};
      if uuid !in empty {
        problems := problems + [StillHasData(uuid)];
      } else if empty[uuid] >= tx {
        problems := problems + [NotPrior(tx, uuid)];
      }
    }
  }

  /** Every emptied event is the target of some record. */
  method OrphanProblems(empty: map<Uuid, int>, records: seq<Event>) returns (problems: seq<Problem>)
    ensures problems == [] <==> AllTargeted(empty, records)
  {
    problems := [];
    var rest := empty.Keys;
    while rest != {}
      invariant rest <= empty.Keys
      invariant problems == [] <==> forall uuid :: uuid in empty && uuid !in rest ==>
        exists record :: record in records && uuid in Targets(record)
      decreases |rest|
    {
      var uuid: Uuid :| uuid in rest;
      rest := rest - {uuid};
      if !exists record :: record in records && uuid in Targets(record) {
        problems := problems + [Unaudited(uuid)];
      }
    }
  }
}
