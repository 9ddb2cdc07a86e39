/** Excision on the tables, in the order it is carried out: the erased rows are read, their
    transactions and the records that mention the entity are emptied, the rows and the blobs
    nothing refers to are deleted, and the audit marker is inserted. */
module Eraser {
  import opened Facts
  import opened Planner
  import opened Localization
  import opened Identities
  import opened History
  import opened Store
  import opened Soundness
  import opened Committer
  import opened Snapshot

  function Among(list: seq<int>): set<int> {
    set tx | tx in list
  }

  /** The transactions that wrote or retracted some of the rows. */
  function TxsOf(rows: seq<Fact>): set<int> {
    (set f | f in rows :: f.tx) + (set f | f in rows && f.rx.Some? :: f.rx.value)
  }

  function Mentioning(events: seq<Event>, selector: Selector): set<int> {
    set ev | ev in events && ev.payload.Some? && PayloadMentions(ev.payload.value, selector) :: ev.tx
  }

  lemma AmongSnoc(list: seq<int>, tx: int)
    ensures Among(list + [tx]) == Among(list) + {tx}
  {
    assert forall t :: t in list + [tx] <==> t in list || t == tx;
  }

  lemma TxsSnoc(rows: seq<Fact>, f: Fact)
    ensures TxsOf(rows + [f]) == TxsOf(rows) + {f.tx} + (if f.rx.Some? then {f.rx.value} else {})
  {
    assert forall g :: g in rows + [f] <==> g in rows || g == f;
  }

  lemma MentioningSnoc(events: seq<Event>, ev: Event, selector: Selector)
    ensures Mentioning(events + [ev], selector)
      == Mentioning(events, selector) + (if ev.payload.Some? && PayloadMentions(ev.payload.value, selector) then {ev.tx} else {})
  {
    assert forall e :: e in events + [ev] <==> e in events || e == ev;
  }

  /** Emptying more events, and listing them. */
  lemma RedactMore(events: seq<Event>, txs: set<int>, tx: int)
    ensures Redact(Redact(events, txs), {tx}) == Redact(events, txs + {tx})
    ensures UuidsOf(Redact(events, txs), {tx}) == UuidsOf(events, {tx})
    ensures UuidsOf(events, txs + {tx}) == UuidsOf(events, txs) + UuidsOf(events, {tx})
  {
    var redacted := Redact(events, txs);
    forall uuid | uuid in UuidsOf(events, {tx}) ensures uuid in UuidsOf(redacted, {tx}) {
      var ev :| ev in events && ev.tx == tx && ev.uuid == uuid;
      var i :| 0 <= i < |events| && events[i] == ev;
      assert redacted[i] in redacted && redacted[i].tx == tx && redacted[i].uuid == uuid;
    }
    forall uuid | uuid in UuidsOf(redacted, {tx}) ensures uuid in UuidsOf(events, {tx}) {
      var ev :| ev in redacted && ev.tx == tx && ev.uuid == uuid;
      var i :| 0 <= i < |events| && redacted[i] == ev;
      assert events[i] in events && events[i].tx == tx && events[i].uuid == uuid;
    }
  }

  /** Does a record mention the selector?  Created identities first, then the tuples. */
  method RecordReferences(payload: Payload, target: Selector) returns (found: bool)
    ensures found <==> PayloadMentions(payload, target)
  {
    if payload.Redaction? { return false; }
    for i := 0 to |payload.created|
      invariant target !in payload.created[..i]
    {
      if payload.created[i] == target { return true; }
    }
    var inAsserted := TuplesReference(payload.asserted, target);
    if inAsserted { return true; }
    found := TuplesReference(payload.retracted, target);
  }

  method TuplesReference(tuples: seq<Tuple>, target: Selector) returns (found: bool)
    ensures found <==> exists t :: t in tuples && TupleMentions(t, target)
  {
    for i := 0 to |tuples|
      invariant forall j :: 0 <= j < i ==> !TupleMentions(tuples[j], target)
    {
      assert TupleMentions(tuples[i], target) ==> exists t :: t in tuples && TupleMentions(t, target);
      if tuples[i].e == target || tuples[i].a == target { return true; }
      if tuples[i].v == Reference(target) { return true; }
    }
    return false;
  }

  /** The new transaction's selector is free exactly when no identity carries it. */
  lemma SelectorFree(db: Db, uuid: Uuid)
    requires Sound(db)
    ensures SelectorsDistinct(db.ids[db.next := Identity(Eid(uuid), db.next)])
       <==> !exists id :: id in db.ids && id != db.next && db.ids[id].selector == Eid(uuid)
  {
    var ids := db.ids[db.next := Identity(Eid(uuid), db.next)];
    assert SelectorsDistinct(db.ids);
    if SelectorsDistinct(ids) {
      forall id | id in db.ids && id != db.next ensures db.ids[id].selector != Eid(uuid) {
        assert ids[id].selector == db.ids[id].selector && ids[db.next].selector == Eid(uuid);
      }
    }
  }

  lemma MarkerRows(db: Db, ex: Excision)
    ensures Fresh(db.nextRow, MarkerKeys(db, ex), db.next)
      == [Fact(db.nextRow, MarkerKeys(db, ex)[0], db.next, None)] + [Fact(db.nextRow + 1, MarkerKeys(db, ex)[1], db.next, None)]
  {
  }

  lemma MarkersFree(db: Db, ex: Excision)
    requires Excising(db, ex)
    ensures var keys, table := MarkerKeys(db, ex), Remaining(db.table, ex.entity);
      && !LiveKey(table, keys[0]) && !LiveKey(table + [Fact(db.nextRow, keys[0], db.next, None)], keys[1])
  {
    var keys, table := MarkerKeys(db, ex), Remaining(db.table, ex.entity);
    MarkersMention(db, ex);
    NewIdNotLive(db, keys[0], db.next);
    NewIdNotLive(db, keys[1], db.next);
    forall f | f in table && f.rx.None? ensures f.key in Keys(LiveOf(db.table)) {
      assert f in LiveOf(db.table);
    }
  }

  class Eraser {
    const tables: Tables
    var ids: map<int, Identity>
    var next: int
    var events: seq<Event>

    function State(): Db
      reads this, tables
    {
      Db(tables.table, tables.nextRow, ids, next, events, tables.fts, tables.blobs)
    }

    constructor (tables: Tables, ids: map<int, Identity>, next: int, events: seq<Event>)
      ensures this.tables == tables && this.ids == ids && this.next == next && this.events == events
    {
      this.tables, this.ids, this.next, this.events := tables, ids, next, events;
    }

    /** Notes the transactions of the erased rows and drops the rows from the full-text index. */
    method DropTexts(rows: seq<Fact>) returns (list: seq<int>)
      modifies tables`fts
      ensures Among(list) == TxsOf(rows) && tables.fts == old(tables.fts) - TextRows(rows)
    {
      list := [];
      for i := 0 to |rows|
        invariant Among(list) == TxsOf(rows[..i]) && tables.fts == old(tables.fts) - TextRows(rows[..i])
      {
        assert rows[..i + 1] == rows[..i] + [rows[i]];
        RowsSnoc(rows[..i], rows[i]);
        TxsSnoc(rows[..i], rows[i]);
        AmongSnoc(list, rows[i].tx);
        list := list + [rows[i].tx];
        if rows[i].rx.Some? {
          AmongSnoc(list, rows[i].rx.value);
          list := list + [rows[i].rx.value];
        }
        if IsText(rows[i].key.v) {
          tables.fts := tables.fts - {TextRow(rows[i].id, rows[i].key.v)};
        }
      }
      assert rows[..|rows|] == rows;
    }

    /** The transactions whose retained records mention the selector. */
    method PayloadTransactions(selector: Selector) returns (list: seq<int>)
      ensures Among(list) == Mentioning(events, selector)
    {
      list := [];
      for i := 0 to |events|
        invariant Among(list) == Mentioning(events[..i], selector)
      {
        assert events[..i + 1] == events[..i] + [events[i]];
        MentioningSnoc(events[..i], events[i], selector);
        if events[i].payload.Some? {
          var found := RecordReferences(events[i].payload.value, selector);
          if found {
            AmongSnoc(list, events[i].tx);
            list := list + [events[i].tx];
          }
        }
      }
      assert events[..|events|] == events;
    }

    /** Empties the events one transaction at a time and collects their ids. */
    method RedactEvents(list: seq<int>) returns (redacts: set<Uuid>)
      modifies `events
      ensures events == Redact(old(events), Among(list)) && redacts == UuidsOf(old(events), Among(list))
    {
      redacts := {};
      assert Redact(events, {}) == events;
      for i := 0 to |list|
        invariant events == Redact(old(events), Among(list[..i])) && redacts == UuidsOf(old(events), Among(list[..i]))
      {
        assert list[..i + 1] == list[..i] + [list[i]];
        AmongSnoc(list[..i], list[i]);
        RedactMore(old(events), Among(list[..i]), list[i]);
        redacts := redacts + UuidsOf(events, {list[i]});
        events := Redact(events, {list[i]});
      }
      assert list[..|list|] == list;
    }

    /** Deletes the rows and the blobs they alone referred to, then inserts the audit marker. */
    method ReplaceRows(ghost db: Db, ex: Excision, tx: int)
      requires Excising(db, ex) && tx == db.next && tables.table == db.table && tables.nextRow == db.nextRow
      modifies tables
      ensures tables.table == Remaining(db.table, ex.entity) + Fresh(db.nextRow, MarkerKeys(db, ex), tx)
      ensures tables.nextRow == db.nextRow + 2 && tables.fts == old(tables.fts)
      ensures tables.blobs == old(tables.blobs) * Hashes(Remaining(db.table, ex.entity))
    {
      MarkersFree(db, ex);
      hide Excising, Remaining, LiveKey, Fresh;
      tables.table := Remaining(tables.table, ex.entity);
      tables.blobs := tables.blobs * Hashes(tables.table);
      var one := tables.InsertFact(Triple(tx, ATTR_AT, Value(TAG_INSTANT, ex.at)), tx);
      var two := tables.InsertFact(Triple(tx, ATTR_EXCISED, Value(TAG_REF, ex.entity)), tx);
      MarkerRows(db, ex);
    }

    /** Carries out the excision that `ex` describes. */
    method EraseEntity(ex: Excision)
      requires Excising(State(), ex)
      modifies this, tables
      ensures State() == Erase(old(State()), ex)
    {
      hide Excising, Remaining, Erased, Fresh;
      ghost var db := State();
      var tx := next;
      var rows := Erased(tables.table, ex.entity);
      var touched := DropTexts(rows);
      var mentioning := PayloadTransactions(SelectorOf(ids, ex.entity));
      var list := touched + mentioning;
      assert Among(list) == RedactedTxs(db, ex.entity);
      var redacts := RedactEvents(list);
      ReplaceRows(db, ex, tx);
      ids := ids[tx := Identity(Eid(ex.uuid), tx)];
      next := tx + 1;
      events := events + [Event(tx, ex.uuid, Some(Redaction(ex.at, redacts)), ex.operation, Redaction(ex.at, redacts))];
    }

    /** The writer step: receipts and the basis first, then what may be excised, then the rest. */
    method Excise(ex: Excision) returns (reply: Reply)
      requires Sound(State())
      modifies this, tables
      ensures (State(), reply) == Store.Excise(old(State()), ex)
    {
      hide Sound, Erase, SelectorsDistinct;
      SelectorFree(State(), ex.uuid);
      var answer := Precheck(events, ex.operation, ex.guard);
      if answer.Some? { return answer.value; }
      if ex.entity !in ids { return Failed(NotFound); }
      if ex.entity <= GENESIS_TX { return Failed(Unsupported); }
      if ex.entity in Txs(events) { return Failed(Unsupported); }
      if next >= MAX_ID { return Failed(TooLarge); }
      if exists id :: id in ids && id != next && ids[id].selector == Eid(ex.uuid) { return Failed(Conflict); }
      reply := Applied(next, Basis(events));
      EraseEntity(ex);
    }
  }
}
