/** Event records and the fact table: in every state of every run each retained record is exactly
    what an export of its transaction would produce again, or speaks of an attribute that keeps no
    history. */
module Exports {
  import opened Facts
  import opened Planner
  import opened Localization
  import opened Identities
  import opened History
  import opened Store
  import opened Soundness
  import opened Runs
  import opened Paging

  // ----- exported keys -----

  function AssertedKeys(table: seq<Fact>, tx: int): seq<Triple> {
    if table == [] then []
    else (if table[0].tx == tx && Exported(table[0]) then [table[0].key] else []) + AssertedKeys(table[1..], tx)
  }

  function RetractedKeys(table: seq<Fact>, tx: int): seq<Triple> {
    if table == [] then []
    else (if table[0].rx == Some(tx) then [table[0].key] else []) + RetractedKeys(table[1..], tx)
  }

  function TuplesOf(ids: map<int, Identity>, keys: seq<Triple>): seq<Tuple> {
    seq(|keys|, i requires 0 <= i < |keys| => ToTuple(ids, keys[i]))
  }

  function KeyList(rows: seq<Fact>): seq<Triple> {
    seq(|rows|, i requires 0 <= i < |rows| => rows[i].key)
  }

  lemma KeyListConcat(s: seq<Fact>, t: seq<Fact>)
    ensures KeyList(s + t) == KeyList(s) + KeyList(t)
  {
  }

  lemma {:induction false} KeptAsserted(table: seq<Fact>, keep: set<Fact>, tx: int)
    requires forall f :: f in table ==> (f in keep <==> f.tx == tx && Exported(f))
    ensures KeyList(Keep(table, keep)) == AssertedKeys(table, tx)
  {
    if table != [] {
      KeptAsserted(table[1..], keep, tx);
      KeyListConcat(if table[0] in keep then [table[0]] else [], Keep(table[1..], keep));
      assert table[0] in table;
    }
  }

  lemma {:induction false} KeptRetracted(table: seq<Fact>, keep: set<Fact>, tx: int)
    requires forall f :: f in table ==> (f in keep <==> f.rx == Some(tx))
    ensures KeyList(Keep(table, keep)) == RetractedKeys(table, tx)
  {
    if table != [] {
      KeptRetracted(table[1..], keep, tx);
      KeyListConcat(if table[0] in keep then [table[0]] else [], Keep(table[1..], keep));
      assert table[0] in table;
    }
  }

  lemma AssertedAre(ids: map<int, Identity>, table: seq<Fact>, tx: int)
    ensures ToTuples(ids, AssertedBy(table, tx)) == TuplesOf(ids, AssertedKeys(table, tx))
  {
    KeptAsserted(table, (set f | f in table && f.tx == tx && Exported(f)), tx);
  }

  lemma RetractedAre(ids: map<int, Identity>, table: seq<Fact>, tx: int)
    ensures ToTuples(ids, RetractedBy(table, tx)) == TuplesOf(ids, RetractedKeys(table, tx))
  {
    KeptRetracted(table, (set f | f in table && f.rx == Some(tx)), tx);
  }

  lemma {:induction false} AssertedConcat(s: seq<Fact>, t: seq<Fact>, tx: int)
    ensures AssertedKeys(s + t, tx) == AssertedKeys(s, tx) + AssertedKeys(t, tx)
  {
    if s == [] {
      assert s + t == t;
    } else {
      assert (s + t)[0] == s[0] && (s + t)[1..] == s[1..] + t;
      AssertedConcat(s[1..], t, tx);
      var head := if s[0].tx == tx && Exported(s[0]) then [s[0].key] else [];
      assert AssertedKeys(s + t, tx) == head + (AssertedKeys(s[1..], tx) + AssertedKeys(t, tx));
    }
  }

  lemma {:induction false} RetractedConcat(s: seq<Fact>, t: seq<Fact>, tx: int)
    ensures RetractedKeys(s + t, tx) == RetractedKeys(s, tx) + RetractedKeys(t, tx)
  {
    if s == [] {
      assert s + t == t;
    } else {
      assert (s + t)[0] == s[0] && (s + t)[1..] == s[1..] + t;
      RetractedConcat(s[1..], t, tx);
      var head, rest, tail := if s[0].rx == Some(tx) then [s[0].key] else [], RetractedKeys(s[1..], tx), RetractedKeys(t, tx);
      assert RetractedKeys(s, tx) == head + rest;
      assert RetractedKeys(s + t, tx) == head + RetractedKeys(s[1..] + t, tx);
      assert head + (rest + tail) == (head + rest) + tail;
    }
  }

  lemma {:induction false} TimesConcat(s: seq<Fact>, t: seq<Fact>, tx: int)
    ensures TimeKeys(s + t, tx) == TimeKeys(s, tx) + TimeKeys(t, tx)
  {
    if s == [] {
      assert s + t == t;
    } else {
      assert (s + t)[0] == s[0] && (s + t)[1..] == s[1..] + t;
      TimesConcat(s[1..], t, tx);
      var head, rest, tail := if s[0].tx == tx && !Exported(s[0]) then [s[0].key] else [], TimeKeys(s[1..], tx), TimeKeys(t, tx);
      assert TimeKeys(s, tx) == head + rest;
      assert TimeKeys(s + t, tx) == head + TimeKeys(s[1..] + t, tx);
      assert head + (rest + tail) == (head + rest) + tail;
    }
  }

  lemma KeysConcat(s: seq<Fact>, t: seq<Fact>, tx: int)
    ensures AssertedKeys(s + t, tx) == AssertedKeys(s, tx) + AssertedKeys(t, tx)
    ensures RetractedKeys(s + t, tx) == RetractedKeys(s, tx) + RetractedKeys(t, tx)
    ensures TimeKeys(s + t, tx) == TimeKeys(s, tx) + TimeKeys(t, tx)
  {
    AssertedConcat(s, t, tx);
    RetractedConcat(s, t, tx);
    TimesConcat(s, t, tx);
  }

  lemma {:induction false} NoKeys(table: seq<Fact>, tx: int)
    requires forall f :: f in table ==> f.tx != tx && f.rx != Some(tx)
    ensures AssertedKeys(table, tx) == [] && RetractedKeys(table, tx) == [] && TimeKeys(table, tx) == []
  {
    if table != [] {
      NoKeys(table[1..], tx);
    }
  }

  lemma {:induction false} KeysIn(table: seq<Fact>, tx: int, k: Triple)
    requires k in AssertedKeys(table, tx) || k in RetractedKeys(table, tx)
    ensures exists f :: f in table && f.key == k
  {
    if k in AssertedKeys(table[1..], tx) || k in RetractedKeys(table[1..], tx) {
      KeysIn(table[1..], tx, k);
    } else {
      assert table[0].key == k;
    }
  }

  lemma {:induction false} AssertedIn(table: seq<Fact>, tx: int, f: Fact)
    requires f in table && f.tx == tx && Exported(f)
    ensures f.key in AssertedKeys(table, tx)
  {
    if f != table[0] {
      assert f in table[1..];
      AssertedIn(table[1..], tx, f);
    }
  }

  lemma OneRetiredKeys(schema: Schema, f: Fact, gone: set<Fact>, now: int, tx: int)
    requires tx != now && (f in gone ==> f.rx.None? && (f.key.a in schema.nohistory ==> f.tx != tx))
    ensures AssertedKeys(RetireRow(schema, f, gone, now), tx) == AssertedKeys([f], tx)
    ensures RetractedKeys(RetireRow(schema, f, gone, now), tx) == RetractedKeys([f], tx)
  {
    var row := RetireRow(schema, f, gone, now);
    assert [f][1..] == [];
    if row != [] { assert row[1..] == [] && row[0].key == f.key && row[0].tx == f.tx; }
  }

  /** Retiring rows changes what transaction `tx` exports only by deleting rows that it asserted. */
  lemma {:induction false} RetiredKeys(schema: Schema, table: seq<Fact>, gone: set<Fact>, now: int, tx: int)
    requires tx != now && forall f :: f in gone ==> f.rx.None? && (f.key.a in schema.nohistory ==> f.tx != tx)
    ensures AssertedKeys(Retired(schema, table, gone, now), tx) == AssertedKeys(table, tx)
    ensures RetractedKeys(Retired(schema, table, gone, now), tx) == RetractedKeys(table, tx)
  {
    if table != [] {
      hide Exported;
      RetiredKeys(schema, table[1..], gone, now, tx);
      KeysConcat(RetireRow(schema, table[0], gone, now), Retired(schema, table[1..], gone, now), tx);
      KeysConcat([table[0]], table[1..], tx);
      assert table == [table[0]] + table[1..];
      OneRetiredKeys(schema, table[0], gone, now, tx);
    }
  }

  lemma {:induction false} RetiredTimes(schema: Schema, table: seq<Fact>, gone: set<Fact>, now: int, tx: int)
    requires forall f :: f in gone ==> Exported(f)
    ensures TimeKeys(Retired(schema, table, gone, now), tx) == TimeKeys(table, tx)
  {
    if table != [] {
      RetiredTimes(schema, table[1..], gone, now, tx);
      TimesConcat(RetireRow(schema, table[0], gone, now), Retired(schema, table[1..], gone, now), tx);
    }
  }

  lemma {:induction false} RemainingKeys(table: seq<Fact>, keep: set<Fact>, tx: int)
    requires forall f :: f in table && f !in keep ==> f.tx != tx && f.rx != Some(tx)
    ensures AssertedKeys(Keep(table, keep), tx) == AssertedKeys(table, tx)
    ensures RetractedKeys(Keep(table, keep), tx) == RetractedKeys(table, tx)
  {
    if table != [] {
      RemainingKeys(table[1..], keep, tx);
      var head := if table[0] in keep then [table[0]] else [];
      KeysConcat(head, Keep(table[1..], keep), tx);
      assert table[0] in table;
    }
  }

  lemma {:induction false} RemainingTimes(table: seq<Fact>, keep: set<Fact>, tx: int)
    requires forall f :: f in table && f !in keep ==> f.tx != tx || Exported(f)
    ensures TimeKeys(Keep(table, keep), tx) == TimeKeys(table, tx)
  {
    if table != [] {
      RemainingTimes(table[1..], keep, tx);
      var head := if table[0] in keep then [table[0]] else [];
      TimesConcat(head, Keep(table[1..], keep), tx);
      assert table[0] in table;
    }
  }

  // ----- records -----

  /** What an export of event i produces from the identities and the fact table. */
  function RecordOf(ids: map<int, Identity>, table: seq<Fact>, before: int, tx: int): Payload
    requires before < tx
  {
    Changes(OriginTime(TimeKeys(table, tx)), CreatedBy(ids, before + 1, tx),
            TuplesOf(ids, AssertedKeys(table, tx)), TuplesOf(ids, RetractedKeys(table, tx)))
  }

  /** The record speaks of an attribute that keeps no history. */
  ghost predicate Excused(schema: Schema, ids: map<int, Identity>, payload: Payload)
    requires payload.Changes?
  {
    exists t, a :: (t in payload.asserted || t in payload.retracted) && a in schema.nohistory && a in ids && ids[a].selector == t.a
  }

  /** A retained record carries the instant of its transaction and the identities it created, and
      is the export of its transaction unless it is excused; a redaction creates no identity. */
  ghost predicate RecordOk(schema: Schema, db: Db, before: int, ev: Event)
    requires before < ev.tx
  {
    && TimeOk(db, ev)
    && (ev.payload.Some? ==>
          match ev.payload.value
          case Redaction(_, _) => ev.tx == before + 1
          case Changes(_, created, _, _) =>
            && created == CreatedBy(db.ids, before + 1, ev.tx)
            && (ev.payload.value == RecordOf(db.ids, db.table, before, ev.tx) || Excused(schema, db.ids, ev.payload.value)))
  }

  /** The record carries the instant of its transaction. */
  predicate TimeOk(db: Db, ev: Event) {
    ev.payload.Some? ==> ev.payload.value.at == OriginTime(TimeKeys(db.table, ev.tx))
  }

  ghost predicate Recorded(schema: Schema, db: Db) {
    && (db.events != [] ==> TimeOk(db, db.events[0]))
    && forall i, j :: 0 <= i < j < |db.events| && j == i + 1 ==> RecordAt(schema, db, i, j)
  }

  /** The identities of `ids` up to `next` are also those of `ids'`. */
  ghost predicate SameIds(ids: map<int, Identity>, ids': map<int, Identity>, next: int) {
    (forall id :: id in ids ==> id in ids' && ids'[id] == ids[id]) && (forall id :: id < next && id in ids' ==> id in ids)
  }

  lemma SameRecord(db: Db, db': Db, before: int, tx: int)
    requires before < tx < db.next && SameIds(db.ids, db'.ids, db.next)
    requires forall f :: f in db.table ==> forall id :: id in Mentions(f.key) ==> id in db.ids
    requires AssertedKeys(db'.table, tx) == AssertedKeys(db.table, tx) && RetractedKeys(db'.table, tx) == RetractedKeys(db.table, tx)
    requires TimeKeys(db'.table, tx) == TimeKeys(db.table, tx)
    ensures RecordOf(db'.ids, db'.table, before, tx) == RecordOf(db.ids, db.table, before, tx)
  {
    hide AssertedKeys, RetractedKeys, ToTuple, CreatedBy, TimeKeys, OriginTime, SameIds, Mentions;
    forall k | k in AssertedKeys(db.table, tx) || k in RetractedKeys(db.table, tx) ensures ToTuple(db'.ids, k) == ToTuple(db.ids, k) {
      KeysIn(db.table, tx, k);
      SameTuple(db.ids, db'.ids, db.next, k);
    }
    SameTuples(db.ids, db'.ids, AssertedKeys(db.table, tx));
    SameTuples(db.ids, db'.ids, RetractedKeys(db.table, tx));
    SameCreated(db, db', before, tx);
  }

  lemma SameTuples(ids: map<int, Identity>, ids': map<int, Identity>, keys: seq<Triple>)
    requires forall k :: k in keys ==> ToTuple(ids', k) == ToTuple(ids, k)
    ensures TuplesOf(ids', keys) == TuplesOf(ids, keys)
  {
  }

  lemma SameCreated(db: Db, db': Db, before: int, tx: int)
    requires before < tx < db.next && SameIds(db.ids, db'.ids, db.next)
    ensures CreatedBy(db'.ids, before + 1, tx) == CreatedBy(db.ids, before + 1, tx)
  {
    assert forall id :: id < db.next ==> SelectorOf(db'.ids, id) == SelectorOf(db.ids, id);
  }

  lemma SameTuple(ids: map<int, Identity>, ids': map<int, Identity>, next: int, k: Triple)
    requires SameIds(ids, ids', next) && forall id :: id in Mentions(k) ==> id in ids
    ensures ToTuple(ids', k) == ToTuple(ids, k)
  {
    assert k.e in Mentions(k) && k.a in Mentions(k) && (k.v.tag == TAG_REF ==> k.v.cell in Mentions(k));
  }

  lemma RowsKnown(db: Db)
    requires Sound(db)
    ensures forall f :: f in db.table ==> forall id :: id in Mentions(f.key) ==> id in db.ids
    ensures db.next == Basis(db.events) + 1 && db.events != [] && (forall id :: id in db.ids ==> id < db.next)
  {
    forall f | f in db.table ensures forall id :: id in Mentions(f.key) ==> id in db.ids {
      assert RowOk(db, f);
    }
  }

  // ----- a commit keeps the records -----

  lemma CommitKeys(schema: Schema, db: Db, req: Request, delta: Delta, tx: int)
    requires Committing(schema, db, req, delta) && tx < db.next
    requires forall f :: f in delta.retractions && f.key.a in schema.nohistory ==> f.tx != tx
    ensures var table := Committed(schema, db, req, delta).table;
      AssertedKeys(table, tx) == AssertedKeys(db.table, tx) && RetractedKeys(table, tx) == RetractedKeys(db.table, tx)
  {
    hide Committing, Committed, KeysOf;
    var now, keys := TxOf(db, req, delta), KeysOf(db, req, delta);
    CommitParts(schema, db, req, delta);
    RetractionsSpareReceipts(schema, db, req, delta);
    var retired, added := Retired(schema, db.table, Gone(delta), now), Fresh(db.nextRow, keys, now);
    RetiredKeys(schema, db.table, Gone(delta), now, tx);
    KeysConcat(retired, added, tx);
    NoKeys(added, tx);
  }

  /** Retracted rows are never about a transaction, so timestamps stay. */
  lemma RetractedExported(schema: Schema, db: Db, req: Request, delta: Delta)
    requires Committing(schema, db, req, delta)
    ensures forall f :: f in delta.retractions ==> f in db.table && Exported(f)
  {
    hide Committing, Committed;
    RetractionsSpareReceipts(schema, db, req, delta);
    CommittingSound(schema, db, req, delta);
    forall f | f in delta.retractions ensures f in db.table && Exported(f) {
      SoundRow(db, f);
    }
  }

  lemma CommitTimes(schema: Schema, db: Db, req: Request, delta: Delta, tx: int)
    requires Committing(schema, db, req, delta) && tx < db.next
    ensures TimeKeys(Committed(schema, db, req, delta).table, tx) == TimeKeys(db.table, tx)
  {
    hide Committing, Committed, KeysOf;
    var now, keys := TxOf(db, req, delta), KeysOf(db, req, delta);
    CommitParts(schema, db, req, delta);
    RetractedExported(schema, db, req, delta);
    var retired, added := Retired(schema, db.table, Gone(delta), now), Fresh(db.nextRow, keys, now);
    RetiredTimes(schema, db.table, Gone(delta), now, tx);
    KeysConcat(retired, added, tx);
    NoKeys(added, tx);
  }

  lemma CommitIds(schema: Schema, db: Db, req: Request, delta: Delta)
    requires (forall id :: id in db.ids ==> id < db.next)
    ensures SameIds(db.ids, Committed(schema, db, req, delta).ids, db.next)
  {
  }

  lemma NewRecord(schema: Schema, db: Db, req: Request, delta: Delta)
    ensures var db', tx := Committed(schema, db, req, delta), TxOf(db, req, delta);
      |db'.events| == |db.events| + 1 && db'.events[|db.events|].tx == tx
      && db'.events[|db.events|].payload == Some(RecordOf(db'.ids, db'.table, db.next - 1, tx))
  {
    var db', tx := Committed(schema, db, req, delta), TxOf(db, req, delta);
    AssertedAre(db'.ids, db'.table, tx);
    RetractedAre(db'.ids, db'.table, tx);
  }

  lemma ExcusedStays(schema: Schema, ids: map<int, Identity>, ids': map<int, Identity>, next: int, payload: Payload)
    requires payload.Changes? && SameIds(ids, ids', next) && Excused(schema, ids, payload)
    ensures Excused(schema, ids', payload)
  {
    var t, a :| (t in payload.asserted || t in payload.retracted) && a in schema.nohistory && a in ids && ids[a].selector == t.a;
    assert a in ids' && ids'[a].selector == t.a;
  }

  /** Deleting a row excuses the record of the transaction that asserted it. */
  lemma DeletionExcuses(schema: Schema, db: Db, before: int, f: Fact)
    requires Sound(db) && f in db.table && Exported(f) && f.key.a in schema.nohistory && before < f.tx
    ensures Excused(schema, db.ids, RecordOf(db.ids, db.table, before, f.tx))
  {
    hide Sound;
    RowsKnown(db);
    AssertedIn(db.table, f.tx, f);
    var keys := AssertedKeys(db.table, f.tx);
    var i :| 0 <= i < |keys| && keys[i] == f.key;
    var t := TuplesOf(db.ids, keys)[i];
    assert f.key.a in Mentions(f.key) && t.a == db.ids[f.key.a].selector;
    assert t in RecordOf(db.ids, db.table, before, f.tx).asserted;
  }

  lemma OldChanges(schema: Schema, db: Db, req: Request, delta: Delta, before: int, tx: int, payload: Payload)
    requires Committing(schema, db, req, delta) && before < tx < db.next && payload == RecordOf(db.ids, db.table, before, tx)
    ensures var db' := Committed(schema, db, req, delta);
      payload == RecordOf(db'.ids, db'.table, before, tx) || Excused(schema, db'.ids, payload)
  {
    hide Committing, Committed, RecordOf, Sound;
    var db' := Committed(schema, db, req, delta);
    CommittingSound(schema, db, req, delta);
    RowsKnown(db);
    CommitIds(schema, db, req, delta);
    RetractedExported(schema, db, req, delta);
    if f :| f in delta.retractions && f.key.a in schema.nohistory && f.tx == tx {
      DeletionExcuses(schema, db, before, f);
      IsChanges(db, before, tx);
      ExcusedStays(schema, db.ids, db'.ids, db.next, payload);
    } else {
      CommitKeys(schema, db, req, delta, tx);
      CommitTimes(schema, db, req, delta, tx);
      SameRecord(db, db', before, tx);
    }
  }

  lemma IsChanges(db: Db, before: int, tx: int)
    requires before < tx
    ensures var record := RecordOf(db.ids, db.table, before, tx);
      && record.Changes? && record.at == OriginTime(TimeKeys(db.table, tx)) && record.created == CreatedBy(db.ids, before + 1, tx)
  {
  }

  lemma OldRecord(schema: Schema, db: Db, req: Request, delta: Delta, before: int, ev: Event)
    requires Committing(schema, db, req, delta) && before < ev.tx < db.next && RecordOk(schema, db, before, ev)
    ensures RecordOk(schema, Committed(schema, db, req, delta), before, ev)
  {
    hide Committing, Committed, RecordOf, Excused, Sound;
    var db' := Committed(schema, db, req, delta);
    CommittingSound(schema, db, req, delta);
    RowsKnown(db);
    CommitIds(schema, db, req, delta);
    CommitTimes(schema, db, req, delta, ev.tx);
    SameCreated(db, db', before, ev.tx);
    if ev.payload.Some? && ev.payload.value.Changes? {
      if ev.payload.value == RecordOf(db.ids, db.table, before, ev.tx) {
        OldChanges(schema, db, req, delta, before, ev.tx, ev.payload.value);
      } else {
        ExcusedStays(schema, db.ids, db'.ids, db.next, ev.payload.value);
      }
    }
  }

  ghost predicate RecordAt(schema: Schema, db: Db, i: int, j: int)
    requires 0 <= i < j < |db.events|
  {
    db.events[i].tx < db.events[j].tx && RecordOk(schema, db, db.events[i].tx, db.events[j])
  }

  lemma CommitRecordAt(schema: Schema, db: Db, req: Request, delta: Delta, i: nat, j: nat)
    requires Committing(schema, db, req, delta) && j == i + 1 <= |db.events|
    requires j < |db.events| ==> RecordAt(schema, db, i, j)
    ensures j < |Committed(schema, db, req, delta).events| && RecordAt(schema, Committed(schema, db, req, delta), i, j)
  {
    hide Committing, Sound, Committed, RecordOk, RecordOf;
    var db', n := Committed(schema, db, req, delta), |db.events|;
    CommittingSound(schema, db, req, delta);
    EventsBelow(db);
    CommitParts(schema, db, req, delta);
    NewRecord(schema, db, req, delta);
    assert db'.events[i] == db'.events[..n][i] == db.events[i];
    if j < n {
      assert db'.events[j] == db'.events[..n][j] == db.events[j];
      OldRecord(schema, db, req, delta, db.events[i].tx, db.events[j]);
    } else {
      ChangesOk(schema, db', db.next - 1, db'.events[n]);
    }
  }

  lemma CommitRecorded(schema: Schema, db: Db, req: Request, delta: Delta)
    requires Committing(schema, db, req, delta) && Recorded(schema, db)
    ensures Recorded(schema, Committed(schema, db, req, delta))
  {
    hide Committing, Committed, RecordAt, Sound, TimeKeys, OriginTime;
    var db' := Committed(schema, db, req, delta);
    CommitParts(schema, db, req, delta);
    CommittingSound(schema, db, req, delta);
    EventsBelow(db);
    assert db'.events[0] == db'.events[..|db.events|][0] == db.events[0];
    CommitTimes(schema, db, req, delta, db.events[0].tx);
    forall i, j | 0 <= i < j < |db'.events| && j == i + 1 ensures RecordAt(schema, db', i, j) {
      assert j < |db.events| ==> RecordAt(schema, db, i, j);
      CommitRecordAt(schema, db, req, delta, i, j);
    }
  }

  lemma ChangesOk(schema: Schema, db: Db, before: int, ev: Event)
    requires before < ev.tx && ev.payload == Some(RecordOf(db.ids, db.table, before, ev.tx))
    ensures RecordOk(schema, db, before, ev)
  {
  }

  lemma EventsBelow(db: Db)
    requires Sound(db)
    ensures forall i :: 0 <= i < |db.events| ==> db.events[i].tx < db.next
    ensures |db.events| > 0 && db.events[|db.events| - 1].tx == db.next - 1
  {
    TxsBounded(db);
    forall i | 0 <= i < |db.events| ensures db.events[i].tx < db.next {
      assert db.events[i] in db.events && db.events[i].tx in Txs(db.events);
    }
  }

  // ----- an erasure keeps the retained records -----

  lemma EraseKeys(db: Db, ex: Excision, tx: int)
    requires tx !in RedactedTxs(db, ex.entity) && tx < db.next
    ensures AssertedKeys(Erase(db, ex).table, tx) == AssertedKeys(db.table, tx)
    ensures RetractedKeys(Erase(db, ex).table, tx) == RetractedKeys(db.table, tx)
    ensures TimeKeys(Erase(db, ex).table, tx) == TimeKeys(db.table, tx)
  {
    hide Erase;
    var keep := set f | f in db.table && !Speaks(f.key, ex.entity);
    var added := Fresh(db.nextRow, MarkerKeys(db, ex), db.next);
    EraseParts(db, ex);
    forall f | f in db.table && f !in keep ensures f.tx != tx && f.rx != Some(tx) {
      assert f in Erased(db.table, ex.entity);
    }
    RemainingKeys(db.table, keep, tx);
    RemainingTimes(db.table, keep, tx);
    KeysConcat(Remaining(db.table, ex.entity), added, tx);
    NoKeys(added, tx);
  }

  lemma ErasedRecord(schema: Schema, db: Db, ex: Excision, before: int, was: Event)
    requires Sound(db) && before < was.tx < db.next && RecordOk(schema, db, before, was)
    ensures var ev := if was.tx in RedactedTxs(db, ex.entity) then was.(payload := None) else was;
      RecordOk(schema, Erase(db, ex), before, ev)
  {
    hide Sound, Erase, RecordOf, RedactedTxs, Excused;
    var db' := Erase(db, ex);
    RowsKnown(db);
    EraseParts(db, ex);
    if was.tx !in RedactedTxs(db, ex.entity) {
      EraseKeys(db, ex, was.tx);
      SameRecord(db, db', before, was.tx);
      SameCreated(db, db', before, was.tx);
      if was.payload.Some? && was.payload.value.Changes? && Excused(schema, db.ids, was.payload.value) {
        ExcusedStays(schema, db.ids, db'.ids, db.next, was.payload.value);
      }
    }
  }

  lemma EraseEventAt(db: Db, ex: Excision, j: nat)
    requires j < |db.events|
    ensures j < |Erase(db, ex).events|
    ensures Erase(db, ex).events[j]
         == if db.events[j].tx in RedactedTxs(db, ex.entity) then db.events[j].(payload := None) else db.events[j]
  {
  }

  lemma EraseRecordAt(schema: Schema, db: Db, ex: Excision, i: nat, j: nat)
    requires Sound(db) && j == i + 1 <= |db.events| && (j < |db.events| ==> RecordAt(schema, db, i, j))
    ensures j < |Erase(db, ex).events| && RecordAt(schema, Erase(db, ex), i, j)
  {
    hide Sound, Erase, RecordOk, RedactedTxs;
    var db', n := Erase(db, ex), |db.events|;
    EventsBelow(db);
    EraseParts(db, ex);
    if j < n {
      EraseEventAt(db, ex, j);
      ErasedRecord(schema, db, ex, db.events[i].tx, db.events[j]);
    } else {
      RedactionOk(schema, db, ex);
    }
  }

  lemma EraseRecorded(schema: Schema, db: Db, ex: Excision)
    requires Sound(db) && Recorded(schema, db)
    ensures Recorded(schema, Erase(db, ex))
  {
    hide Sound, Erase, RecordAt, RedactedTxs, TimeKeys, OriginTime;
    var db' := Erase(db, ex);
    EraseParts(db, ex);
    EventsBelow(db);
    EraseEventAt(db, ex, 0);
    if db.events[0].tx !in RedactedTxs(db, ex.entity) { EraseKeys(db, ex, db.events[0].tx); }
    forall i, j | 0 <= i < j < |db'.events| && j == i + 1 ensures RecordAt(schema, db', i, j) {
      assert j < |db.events| ==> RecordAt(schema, db, i, j);
      EraseRecordAt(schema, db, ex, i, j);
    }
  }

  lemma RedactionOk(schema: Schema, db: Db, ex: Excision)
    requires Sound(db)
    ensures var db' := Erase(db, ex);
      && |db'.events| == |db.events| + 1 && db'.events[|db.events|].tx == db.next
      && RecordOk(schema, db', db.next - 1, db'.events[|db.events|])
  {
    hide Sound, Erase, TimeKeys, OriginTime, Remaining, Fresh, MarkerKeys;
    EraseParts(db, ex);
    var rest := Remaining(db.table, ex.entity);
    EarlierRows(db, ex);
    NoKeys(rest, db.next);
    TimesConcat(rest, Fresh(db.nextRow, MarkerKeys(db, ex), db.next), db.next);
    MarkerTime(db, ex);
  }

  lemma EarlierRows(db: Db, ex: Excision)
    requires Sound(db)
    ensures forall f :: f in Remaining(db.table, ex.entity) ==> f.tx != db.next && f.rx != Some(db.next)
  {
    hide Sound;
    forall f | f in Remaining(db.table, ex.entity) ensures f.tx != db.next && f.rx != Some(db.next) {
      SoundRow(db, f);
    }
  }

  lemma OneTime(key: Triple)
    ensures key.a == ATTR_AT || key.a == ATTR_IMPORTED ==> OriginTime([key]) == key.v.cell
  {
    assert [key][..0] == [];
    assert LastCell([key], key.a) == Some(key.v.cell);
    assert key.a == ATTR_AT ==> LastCell([key], ATTR_IMPORTED) == LastCell([], ATTR_IMPORTED);
  }

  lemma MarkerTime(db: Db, ex: Excision)
    ensures OriginTime([] + TimeKeys(Fresh(db.nextRow, MarkerKeys(db, ex), db.next), db.next)) == ex.at
  {
    var key := MarkerKeys(db, ex)[0];
    var added := Fresh(db.nextRow, MarkerKeys(db, ex), db.next);
    assert added[1..] == [added[1]] && added[1..][1..] == [];
    assert TimeKeys(added[1..], db.next) == [];
    assert TimeKeys(added, db.next) == [key];
    assert [] + [key] == [key];
    OneTime(key);
  }

  // ----- runs -----

  lemma StepRecorded(schema: Schema, db: Db, step: Step)
    requires Sound(db) && Admissible(db, step) && Recorded(schema, db)
    ensures Recorded(schema, Next(schema, db, step).0)
  {
    var (db', reply) := Next(schema, db, step);
    StepCases(schema, db, step);
    hide Recorded, Sound;
    if reply.Applied? && step.Write? {
      CommitRecorded(schema, db, step.req, DeltaOf(schema, db, step.req));
    } else if reply.Applied? {
      EraseRecorded(schema, db, step.ex);
    }
  }

  /** In every state of every run each retained event record carries its transaction's instant and
      identities, and is what its transaction would export again from the current tables unless it
      speaks of an attribute that keeps no history. */
  lemma {:induction false} RunRecorded(schema: Schema, dbs: seq<Db>, steps: seq<Step>, i: nat)
    requires IsRun(schema, dbs, steps) && i < |dbs| && Recorded(schema, dbs[0])
    ensures Recorded(schema, dbs[i])
  {
    hide *;
    RunLength(schema, dbs, steps);
    if i > 0 {
      RunRecorded(schema, dbs, steps, i - 1);
      RunStep(schema, dbs, steps, i - 1);
      StepRecorded(schema, dbs[i - 1], steps[i - 1]);
    }
  }
}
