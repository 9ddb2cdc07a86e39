/** Restoring a snapshot: the lines are read into a pristine store and the result must pass the
    store's own inspection.  This module says exactly which reachable stores can be restored. */
module Recovery {
  import opened Facts
  import opened Planner
  import opened Localization
  import opened Identities
  import opened History
  import opened Store
  import opened Soundness
  import opened Runs
  import opened Constraints
  import opened Derived
  import opened Exports
  import opened Audit
  import opened Snapshot
  import opened Retained
  import opened Doctor

  /** Reads the stream and inspects the store it leads to. */
  ghost function Restore(schema: Schema, start: Restoring, stream: Stream): Result<Db> {
    match Rebuild(start, stream)
    case Err(e) => Err(e)
    case Ok(db) => if Healthy(schema, db) then Ok(db) else Err(Malformed)
  }

  // ----- while the lines are read -----

  /** Events stay enumerated and known by id. */
  ghost predicate Tracks(st: Restoring) {
    Enumerated(st.db.events) && forall ev :: ev in st.db.events ==> ev.uuid in st.eventTx && ev.tx < st.next
  }

  lemma ReceiptTracks(st: Restoring, line: ReceiptLine)
    requires Tracks(st) && RestoreReceipt(st, line).Ok?
    ensures Tracks(RestoreReceipt(st, line).value)
  {
    hide Reserve, RestoredIds;
    var st' := RestoreReceipt(st, line).value;
    var events := st'.db.events;
    forall i, j | 0 <= i < j < |events| ensures events[i].tx < events[j].tx && events[i].uuid != events[j].uuid {
      assert events[i] in st.db.events;
    }
  }

  lemma FactTracks(st: Restoring, line: FactLine)
    requires Tracks(st) && RestoreFact(st, line).Ok?
    ensures Tracks(RestoreFact(st, line).value)
  {
  }

  lemma StartsTracking(p: Db, start: Restoring)
    requires Starts(p, start)
    ensures Tracks(start)
  {
    SoundHas(p);
    TxsBounded(p);
  }

  // ----- the inspection does not see row numbers -----

  ghost predicate Renumbers(s: seq<Fact>, t: seq<Fact>) {
    |s| == |t| && forall i :: 0 <= i < |t| ==> s[i] == t[i].(id := s[i].id)
  }

  lemma {:induction false} SameKeys(s: seq<Fact>, t: seq<Fact>, tx: int)
    requires Renumbers(s, t)
    ensures AssertedKeys(s, tx) == AssertedKeys(t, tx) && RetractedKeys(s, tx) == RetractedKeys(t, tx) && TimeKeys(s, tx) == TimeKeys(t, tx)
  {
    if s != [] {
      SameKeys(s[1..], t[1..], tx);
      assert s[0] == t[0].(id := s[0].id);
    }
  }

  lemma {:induction false} SameLive(s: seq<Fact>, t: seq<Fact>)
    requires Renumbers(s, t)
    ensures KeyList(LiveOf(s)) == KeyList(LiveOf(t))
  {
    if s != [] {
      SameLive(s[1..], t[1..]);
      assert s[0] == t[0].(id := s[0].id);
      assert s == [s[0]] + s[1..] && t == [t[0]] + t[1..];
      LiveConcat([s[0]], s[1..]);
      LiveConcat([t[0]], t[1..]);
      KeyListConcat(LiveOf([s[0]]), LiveOf(s[1..]));
      KeyListConcat(LiveOf([t[0]]), LiveOf(t[1..]));
      OneLive(s[0]);
      OneLive(t[0]);
    }
  }

  lemma OneLive(f: Fact)
    ensures KeyList(LiveOf([f])) == if f.rx.None? then [f.key] else []
  {
    LiveOne(f);
  }

  lemma LawfulByKeys(schema: Schema, s: seq<Fact>, t: seq<Fact>)
    requires KeyList(s) == KeyList(t)
    ensures Lawful(schema, s) ==> Lawful(schema, t)
  {
    assert |KeyList(s)| == |s| && |KeyList(t)| == |t|;
    if Lawful(schema, s) {
      forall i, j | 0 <= i < j < |t| ensures Compatible(schema, t[i].key, t[j].key) {
        assert t[i].key == KeyList(t)[i] == s[i].key && t[j].key == KeyList(t)[j] == s[j].key;
      }
    }
  }

  /** Two stores that differ in row numbers, and in nothing else that the inspection reads. */
  ghost predicate Alike(db: Db, r: Db) {
    r.ids == db.ids && r.events == db.events && r.next == db.next && Renumbers(r.table, db.table)
  }

  lemma AlikeRow(db: Db, r: Db, f: Fact)
    requires Alike(db, r) && f in r.table
    ensures exists g :: g in db.table && f == g.(id := f.id)
  {
    var i :| 0 <= i < |r.table| && r.table[i] == f;
    assert db.table[i] in db.table;
  }

  lemma AlikeBack(db: Db, r: Db)
    requires Alike(db, r)
    ensures Alike(r, db)
  {
    forall i | 0 <= i < |db.table| ensures db.table[i] == r.table[i].(id := db.table[i].id) {
      assert r.table[i] == db.table[i].(id := r.table[i].id);
    }
  }

  lemma AlikeFormed(db: Db, r: Db)
    requires Alike(db, r) && Formed(db)
    ensures Formed(r)
  {
    hide Renumbers;
    forall f | f in r.table ensures FactFits(r.ids, Txs(r.events), f) {
      AlikeRow(db, r, f);
    }
  }

  lemma AlikeInspected(schema: Schema, db: Db, r: Db)
    requires Alike(db, r) && Inspected(schema, db)
    ensures Inspected(schema, r)
  {
    hide Accounted, Honest, Renumbers;
    forall ev | ev in r.events && IsRedaction(ev) ensures HasMarker(r.table, ev.tx) {
      assert HasMarker(db.table, ev.tx);
      AlikeMarker(db, r, ev.tx);
    }
    forall i | 0 <= i < |r.events| ensures Reproduced(schema, r, i) {
      assert Reproduced(schema, db, i);
      SameKeys(r.table, db.table, r.events[i].tx);
    }
  }

  lemma AlikeMarker(db: Db, r: Db, tx: int)
    requires Alike(db, r) && HasMarker(db.table, tx)
    ensures HasMarker(r.table, tx)
  {
    var f :| f in db.table && f.key.e == tx && f.key.a == ATTR_EXCISED && f.tx == tx && f.rx.None?;
    AlikeBack(db, r);
    AlikeRow(r, db, f);
    var g :| g in r.table && f == g.(id := f.id);
  }

  lemma AlikeFit(schema: Schema, db: Db, r: Db)
    requires Alike(db, r) && Fit(schema, db)
    ensures Fit(schema, r)
  {
    hide Formed, Inspected, Lawful, Renumbers;
    AlikeFormed(db, r);
    AlikeInspected(schema, db, r);
    SameLive(r.table, db.table);
    LawfulByKeys(schema, LiveOf(db.table), LiveOf(r.table));
  }

  /** Round trip, exactly: restoring the snapshot of a store succeeds if and only if the store
      passes the inspection.  Then every identity comes back with its id, every transaction, every
      record and operation, every fact with its transaction and retraction in the same order, and
      the next id; only row numbers are assigned anew, in the same order. */
  lemma SnapshotReturns(schema: Schema, p: Db, db: Db, start: Restoring)
    requires Starts(p, start) && Restorable(p, db)
    ensures db.events != []
    ensures var r := Restore(schema, start, TakeSnapshot(db));
      && (r.Ok? <==> Fit(schema, db))
      && (r.Ok? ==>
            && r.value.ids == db.ids && r.value.events == db.events && r.value.next == db.next
            && SameRows(r.value.table, db.table) && InStep(r.value))
  {
    hide Rebuild, Fit, Starts, Sound, GrownFrom, Layered, CreatedRecorded, TakeSnapshot, InStep;
    RestorableParts(p, db);
    SnapshotRebuilds(p, db, start);
    var r := Rebuild(start, TakeSnapshot(db)).value;
    assert Alike(db, r);
    AlikeBack(db, r);
    if Fit(schema, db) { AlikeFit(schema, db, r); }
    if Fit(schema, r) { AlikeFit(schema, r, db); }
  }

  // ----- which reachable stores pass -----

  lemma GrownFormed(p: Db, db: Db)
    requires Pristine(p) && Restorable(p, db)
    ensures Formed(db)
  {
    hide Sound, Pristine, Restorable, FactFits, EventFits;
    RestorableSound(p, db);
    LastEvent(db);
    forall id | id in db.ids ensures 0 < id < db.next && db.ids[id].created in Txs(db.events) {
      CreatedBelow(p, db, |db.events| - 1, id);
    }
    forall f | f in db.table ensures FactFits(db.ids, Txs(db.events), f) {
      FactFitsAt(p, db, f);
    }
    forall ev | ev in db.events ensures EventFits(db.ids, ev) {
      var i :| 0 <= i < |db.events| && db.events[i] == ev;
      EventFitsAt(p, db, i);
    }
  }

  lemma LastEvent(db: Db)
    requires Sound(db)
    ensures |db.events| > 0 && db.events[|db.events| - 1].tx == db.next - 1
    ensures db.next - 1 in db.ids && forall id :: id in db.ids ==> 0 < id < db.next
  {
    assert db.events[|db.events| - 1] in db.events;
  }

  lemma FactFitsAt(p: Db, db: Db, f: Fact)
    requires Pristine(p) && Restorable(p, db) && f in db.table
    ensures FactFits(db.ids, Txs(db.events), f)
  {
    hide Sound, Pristine, Restorable, Mentions;
    RestorableSound(p, db);
    SoundRow(db, f);
    var ev :| ev in db.events && ev.tx == f.tx;
    var i :| 0 <= i < |db.events| && db.events[i] == ev;
    forall id | id in Mentions(f.key) ensures db.ids[id].created <= f.tx {
      CreatedBelow(p, db, i, id);
    }
  }

  lemma RestorableSound(p: Db, db: Db)
    requires Restorable(p, db)
    ensures Sound(db)
  {
  }

  lemma EventFitsAt(p: Db, db: Db, i: nat)
    requires Pristine(p) && Restorable(p, db) && i < |db.events|
    ensures EventFits(db.ids, db.events[i])
  {
    hide Sound, Pristine, GapsFilled, Layered, CreatedRecorded;
    var ev := db.events[i];
    assert ev in db.events;
    SoundHas(db);
    EventIdentity(db, ev);
    CreatedAt(p, db, i);
  }

  lemma CreatedAt(p: Db, db: Db, i: nat)
    requires Pristine(p) && GrownFrom(p, db) && Timeline(db) && Registry(db) && i < |db.events|
    ensures db.events[i].tx in db.ids && db.ids[db.events[i].tx].created == db.events[i].tx
  {
    hide Sound, SelectorsDistinct;
    assert db.events[i] in db.events;
    if i > 0 {
      assert GapFilled(db.events[i - 1].tx, db.events[i].tx, db.ids) && db.events[i - 1].tx < db.events[i].tx;
    } else {
      assert db.events[0].tx in p.ids;
    }
  }

  lemma RecordedReproduced(schema: Schema, db: Db)
    requires Recorded(schema, db) && Sound(db)
    ensures forall i :: 0 <= i < |db.events| ==> Reproduced(schema, db, i)
  {
    SoundHas(db);
    hide Sound, Timeline, Rows;
    forall i | 0 <= i < |db.events| ensures Reproduced(schema, db, i) {
      EventIdentity(db, db.events[i]);
      if i > 0 { assert RecordAt(schema, db, i - 1, i); }
    }
  }

  /** In a store that keeps what every run keeps, the inspection comes down to two questions. */
  lemma FitExactly(schema: Schema, p: Db, db: Db)
    requires Pristine(p) && Restorable(p, db) && Trailed(db) && Recorded(schema, db) && OneValue(schema, Keys(LiveOf(db.table)))
    ensures Fit(schema, db) <==> Accounted(db.events) && OneOwner(schema, Keys(LiveOf(db.table)))
  {
    hide *;
    GrownFormed(p, db);
    RestorableSound(p, db);
    RecordedReproduced(schema, db);
    LiveRowsAll(db);
    LawfulExactly(schema, LiveOf(db.table));
    FitParts(schema, db);
  }

  lemma LiveRowsAll(db: Db)
    requires Sound(db)
    ensures LiveRows(LiveOf(db.table))
  {
  }

  lemma FitParts(schema: Schema, db: Db)
    requires Formed(db) && Trailed(db) && forall i :: 0 <= i < |db.events| ==> Reproduced(schema, db, i)
    ensures Fit(schema, db) <==> Accounted(db.events) && Lawful(schema, LiveOf(db.table))
  {
    hide Reproduced, Formed, Lawful, Accounted, Honest, HasMarker;
  }

  // ----- runs -----

  lemma PristineKeeps(schema: Schema, p: Db)
    requires Pristine(p)
    ensures Trailed(p) && Recorded(schema, p)
  {
    assert forall ev :: ev in p.events ==> ev == p.events[0];
  }

  /** Snapshot and restore over runs, exactly: whatever commits and excisions led to a store, its
      snapshot can be restored if and only if no event is empty without a record that lists it and
      no unique value has two owners; then the store comes back. */
  lemma RunSnapshotReturns(schema: Schema, dbs: seq<Db>, steps: seq<Step>, i: nat, start: Restoring)
    requires IsRun(schema, dbs, steps) && i < |dbs| && Starts(dbs[0], start) && Valued(schema, dbs[0])
    ensures dbs[i].events != []
    ensures var db, r := dbs[i], Restore(schema, start, TakeSnapshot(dbs[i]));
      && (r.Ok? <==> Accounted(db.events) && OneOwner(schema, Keys(LiveOf(db.table))))
      && (r.Ok? ==>
            && r.value.ids == db.ids && r.value.events == db.events && r.value.next == db.next
            && SameRows(r.value.table, db.table) && InStep(r.value))
  {
    hide *;
    var p, db := dbs[0], dbs[i];
    StartsFrom(p, start);
    PristineKeeps(schema, p);
    RunRetains(schema, dbs, steps, i);
    RunSound(schema, dbs, steps, i);
    IsRestorable(p, db);
    RunTrailed(schema, dbs, steps, i);
    RunRecorded(schema, dbs, steps, i);
    RunOneValue(schema, dbs, steps, i);
    ValuedNow(schema, db);
    FitExactly(schema, p, db);
    SnapshotReturns(schema, p, db, start);
  }

  lemma StartsFrom(p: Db, start: Restoring)
    requires Starts(p, start)
    ensures Pristine(p)
  {
  }

  lemma ValuedNow(schema: Schema, db: Db)
    requires Valued(schema, db) && Sound(db)
    ensures OneValue(schema, Keys(LiveOf(db.table)))
  {
    RowTimes(db, db.next - 1);
  }

  /** Every store that a run reaches without excising an entity twice and without reclaiming a
      unique value comes back from its snapshot. */
  lemma RunRestores(schema: Schema, dbs: seq<Db>, steps: seq<Step>, i: nat, start: Restoring)
    requires IsRun(schema, dbs, steps) && i < |dbs| && Starts(dbs[0], start) && Valued(schema, dbs[0]) && Owned(schema, dbs[0])
    requires forall j :: 0 <= j < |steps| < |dbs| ==> ExcisesOnce(dbs[j], steps[j]) && NoReclaim(schema, dbs[j], steps[j])
    ensures dbs[i].events != [] && Restore(schema, start, TakeSnapshot(dbs[i])).Ok?
  {
    hide *;
    StartsFrom(dbs[0], start);
    PristineAudited(dbs[0]);
    RunLength(schema, dbs, steps);
    RunAudited(schema, dbs, steps, i);
    RunOneOwner(schema, dbs, steps, i);
    RunSound(schema, dbs, steps, i);
    OwnedNow(schema, dbs[i]);
    AuditedAccounted(dbs[i]);
    RunSnapshotReturns(schema, dbs, steps, i, start);
  }

  lemma PristineAudited(p: Db)
    requires Pristine(p)
    ensures Audited(p)
  {
    assert forall ev :: ev in p.events ==> ev == p.events[0];
  }

  lemma OwnedNow(schema: Schema, db: Db)
    requires Owned(schema, db) && Sound(db)
    ensures OneOwner(schema, Keys(LiveOf(db.table)))
  {
    RowTimes(db, db.next - 1);
  }

  lemma AuditedAccounted(db: Db)
    requires Audited(db)
    ensures Accounted(db.events)
  {
  }

  /** The excluded run: once an entity is excised a second time, and the first excision had emptied
      an event that nothing on the way emptied again, the snapshot is refused. */
  lemma SecondExcisionRefused(schema: Schema, dbs: seq<Db>, steps: seq<Step>, i: nat, j: nat, ev: Event, start: Restoring)
    requires IsRun(schema, dbs, steps) && Starts(dbs[0], start) && Valued(schema, dbs[0]) && i < j < |steps| < |dbs|
    requires steps[i].Erasure? && Next(schema, dbs[i], steps[i]).1.Applied?
    requires steps[j].Erasure? && Next(schema, dbs[j], steps[j]).1.Applied? && steps[j].ex.entity == steps[i].ex.entity
    requires ev in dbs[i].events && ev.payload.Some? && ev.tx in RedactedTxs(dbs[i], steps[i].ex.entity)
    requires forall k :: i < k < j ==> Spares(schema, dbs[k], steps[k], ev.tx)
    ensures dbs[j + 1].events != [] && Restore(schema, start, TakeSnapshot(dbs[j + 1])).Err?
  {
    hide *;
    StartsFrom(dbs[0], start);
    PristineKeeps(schema, dbs[0]);
    SecondExcisionLosesAudit(schema, dbs, steps, i, j, ev);
    RunSnapshotReturns(schema, dbs, steps, j + 1, start);
  }
}
