/** What runs from a pristine store retain, so that each of their states can be restored from a
    snapshot. */
module Retained {
  import opened Facts
  import opened Planner
  import opened Localization
  import opened Identities
  import opened History
  import opened Replay
  import opened Store
  import opened Soundness
  import opened Runs
  import opened Constraints
  import opened Derived
  import opened Exports
  import opened Audit
  import opened Snapshot

  // ----- rows with one key -----

  /** Of two rows with one key the earlier is retracted before the later is asserted. */
  ghost predicate LayeredById(table: seq<Fact>) {
    forall f, g :: f in table && g in table && f.id < g.id && f.key == g.key ==> f.rx.Some? && f.rx.value <= g.tx
  }

  lemma LayeredIs(table: seq<Fact>)
    requires ById(table) && LayeredById(table)
    ensures Layered(table)
  {
    forall i, j | 0 <= i < j < |table| && table[i].key == table[j].key ensures table[i].rx.Some? {
      assert table[i] in table && table[j] in table && table[i].id < table[j].id;
    }
  }

  /** A row of the new table that is not new comes from an old row, and is live only if that is. */
  ghost predicate OldRow(table: seq<Fact>, f: Fact, g: Fact) {
    g in table && f.id == g.id && f.key == g.key && f.tx == g.tx && (g.rx.Some? ==> f.rx == g.rx)
  }

  lemma CommitRowOrigin(schema: Schema, db: Db, req: Request, delta: Delta, f: Fact)
    requires Committing(schema, db, req, delta) && f in Committed(schema, db, req, delta).table
    ensures (exists g :: OldRow(db.table, f, g))
      || (f.id >= db.nextRow && f.rx.None? && f.tx == TxOf(db, req, delta) && f.key !in Keys(LiveOf(db.table)))
  {
    var i := CommitRow(schema, db, req, delta, f);
    var keys, tx := KeysOf(db, req, delta), TxOf(db, req, delta);
    if i < |keys| && f == Fact(db.nextRow + i, keys[i], tx, None) {
      NewKeyAddable(schema, db, req, delta, i);
    } else if f in db.table {
      assert OldRow(db.table, f, f);
    } else {
      var g :| g in db.table && g in Gone(delta) && f == g.(rx := Some(tx));
      assert OldRow(db.table, f, g);
    }
  }

  lemma CommitLayered(schema: Schema, db: Db, req: Request, delta: Delta)
    requires Committing(schema, db, req, delta) && LayeredById(db.table)
    ensures LayeredById(Committed(schema, db, req, delta).table)
  {
    var table := Committed(schema, db, req, delta).table;
    forall f, g | f in table && g in table && f.id < g.id && f.key == g.key ensures f.rx.Some? && f.rx.value <= g.tx {
      PairLayered(schema, db, req, delta, f, g);
    }
  }

  lemma PairLayered(schema: Schema, db: Db, req: Request, delta: Delta, f: Fact, g: Fact)
    requires Committing(schema, db, req, delta) && LayeredById(db.table)
    requires var table := Committed(schema, db, req, delta).table; f in table && g in table
    requires f.id < g.id && f.key == g.key
    ensures f.rx.Some? && f.rx.value <= g.tx
  {
    hide Committing, Committed, Sound;
    CommitRowOrigin(schema, db, req, delta, f);
    CommitRowOrigin(schema, db, req, delta, g);
    CommitSound(schema, db, req, delta);
    LiveDistinct(Committed(schema, db, req, delta), f, g);
    CommittingSound(schema, db, req, delta);
    IdsBelow(db, req, delta);
    RowsBelow(db);
    if f.id < db.nextRow {
      var f' :| OldRow(db.table, f, f');
      if g.id < db.nextRow {
        var g' :| OldRow(db.table, g, g');
      } else {
        OldIsBelow(db, g);
        assert f'.rx.None? ==> f' in LiveOf(db.table);
        assert f'.rx.None? ==> f'.key in Keys(LiveOf(db.table));
        SoundRow(db, f');
      }
    }
  }

  lemma RowsBelow(db: Db)
    requires Sound(db)
    ensures forall f :: f in db.table ==> f.id < db.nextRow
  {
    forall f | f in db.table ensures f.id < db.nextRow {
      assert RowOk(db, f);
    }
  }

  lemma OldIsBelow(db: Db, g: Fact)
    requires (forall f :: f in db.table ==> f.id < db.nextRow) && g.id >= db.nextRow
    ensures !exists g' :: OldRow(db.table, g, g')
  {
  }

  lemma LiveDistinct(db: Db, f: Fact, g: Fact)
    requires Sound(db) && f in db.table && g in db.table && f.id != g.id && f.key == g.key
    ensures f.rx.Some? || g.rx.Some?
  {
    assert f.rx.None? ==> f in LiveOf(db.table);
    assert g.rx.None? ==> g in LiveOf(db.table);
  }

  lemma EraseLayered(db: Db, ex: Excision)
    requires Sound(db) && LayeredById(db.table)
    ensures LayeredById(Erase(db, ex).table)
  {
    var table := Erase(db, ex).table;
    OldEntities(db);
    forall f, g | f in table && g in table && f.id < g.id && f.key == g.key ensures f.rx.Some? && f.rx.value <= g.tx {
      EraseRow(db, ex, f);
      EraseRow(db, ex, g);
      assert f in db.table ==> f.key.e < db.next;
      assert g in db.table ==> g.key.e < db.next;
    }
  }

  // ----- growth from the pristine store -----

  /** Plans that callers may submit retract nothing of a system entity. */
  lemma {:induction false} SystemSurvives(schema: Schema, rows: seq<Fact>, ops: seq<Op>, k: Triple)
    requires UserPlan(rows, ops) && k in Keys(rows) && 0 < k.e <= GENESIS_TX
    ensures k in ApplyAll(schema, Receipts(rows), Keys(rows), ops)
  {
    if ops != [] {
      var shorter, op := ops[..|ops| - 1], ops[|ops| - 1];
      assert forall o :: o in shorter ==> o in ops;
      SystemSurvives(schema, rows, shorter, k);
      assert op in ops;
    }
  }

  lemma GenesisSpared(schema: Schema, db: Db, req: Request, delta: Delta, f: Fact)
    requires Committing(schema, db, req, delta) && f in delta.retractions && f.key.e > 0
    ensures f.key.e > GENESIS_TX
  {
    var rows := LiveOf(db.table);
    PlanRefines(schema, rows, req.ops);
    GoneExactly(rows, delta, f);
    if f.key.e <= GENESIS_TX {
      SystemSurvives(schema, rows, req.ops, f.key);
    }
  }

  lemma SystemRow(p: Db, f: Fact)
    requires Pristine(p) && f in p.table
    ensures 0 < f.key.e <= GENESIS_TX && f.key.a <= GENESIS_TX && (f.key.v.tag == TAG_REF ==> f.key.v.cell <= GENESIS_TX) && f.tx == GENESIS_TX
  {
    assert RowOk(p, f);
    assert f.key.e in Mentions(f.key) && f.key.a in Mentions(f.key) && (f.key.v.tag == TAG_REF ==> f.key.v.cell in Mentions(f.key));
    var ev :| ev in p.events && ev.tx == f.tx;
    assert ev == p.events[0];
  }

  lemma RestRows(p: Db, db: Db, f: Fact)
    requires GrownFrom(p, db) && f in db.table[|p.table|..]
    ensures f.tx > GENESIS_TX
  {
    var i :| 0 <= i < |db.table[|p.table|..]| && db.table[|p.table|..][i] == f;
    assert db.table[|p.table| + i] == f;
  }

  /** The table starts with the given rows and everything after them came later. */
  ghost predicate StartsWith(table: seq<Fact>, first: seq<Fact>) {
    && |first| <= |table| && table[..|first|] == first
    && forall i :: |first| <= i < |table| ==> table[i].tx > GENESIS_TX
  }

  lemma JoinedStarts(first: seq<Fact>, later: seq<Fact>)
    requires forall f :: f in later ==> f.tx > GENESIS_TX
    ensures StartsWith(first + later, first)
  {
    forall i | |first| <= i < |first + later| ensures (first + later)[i].tx > GENESIS_TX {
      assert (first + later)[i] == later[i - |first|];
    }
  }

  lemma InstallStarts(schema: Schema, first: seq<Fact>, rest: seq<Fact>, next: nat, gone: set<Fact>, keys: seq<Triple>, tx: int)
    requires (forall f :: f in first ==> f !in gone) && (forall f :: f in rest ==> f.tx > GENESIS_TX) && tx > GENESIS_TX
    ensures StartsWith(Install(schema, first + rest, next, gone, keys, tx), first)
  {
    var retired, added := Retired(schema, rest, gone, tx), Fresh(next, keys, tx);
    RetiredConcat(schema, first, rest, gone, tx);
    RetiredUntouched(schema, first, gone, tx);
    assert Install(schema, first + rest, next, gone, keys, tx) == first + (retired + added);
    forall f: Fact | f in retired + added ensures f.tx > GENESIS_TX {
      RetiredRows(schema, rest, gone, tx, f);
    }
    JoinedStarts(first, retired + added);
  }

  lemma RemainingStarts(first: seq<Fact>, rest: seq<Fact>, keep: set<Fact>, next: nat, keys: seq<Triple>, tx: int)
    requires (forall f :: f in first ==> f in keep) && (forall f :: f in rest ==> f.tx > GENESIS_TX) && tx > GENESIS_TX
    ensures StartsWith(Keep(first + rest, keep) + Fresh(next, keys, tx), first)
  {
    var later := Keep(rest, keep) + Fresh(next, keys, tx);
    KeepConcat(first, rest, keep);
    KeepAll(first, keep);
    assert Keep(first + rest, keep) + Fresh(next, keys, tx) == first + later;
    JoinedStarts(first, later);
  }

  lemma GrownStarts(p: Db, db: Db)
    requires GrownFrom(p, db)
    ensures db.table == p.table + db.table[|p.table|..] && forall f :: f in db.table[|p.table|..] ==> f.tx > GENESIS_TX
  {
    forall f | f in db.table[|p.table|..] ensures f.tx > GENESIS_TX { RestRows(p, db, f); }
  }

  lemma CommitTableGrows(schema: Schema, p: Db, db: Db, req: Request, delta: Delta)
    requires Pristine(p) && GrownFrom(p, db) && Committing(schema, db, req, delta)
    ensures StartsWith(Committed(schema, db, req, delta).table, p.table)
  {
    hide Sound, Resolved, Plan, Committed, Pristine, GrownFrom, StartsWith;
    NextAbove(db);
    CommitParts(schema, db, req, delta);
    forall f | f in p.table ensures f !in Gone(delta) {
      SystemRow(p, f);
      if f in delta.retractions { GenesisSpared(schema, db, req, delta, f); }
    }
    GrownStarts(p, db);
    InstallStarts(schema, p.table, db.table[|p.table|..], db.nextRow, Gone(delta), KeysOf(db, req, delta), TxOf(db, req, delta));
  }

  lemma NextAbove(db: Db)
    requires Sound(db)
    ensures db.next > GENESIS_TX
  {
    TxsBounded(db);
  }

  lemma CommitGrows(schema: Schema, p: Db, db: Db, req: Request, delta: Delta)
    requires Pristine(p) && GrownFrom(p, db) && Committing(schema, db, req, delta)
    ensures GrownFrom(p, Committed(schema, db, req, delta))
  {
    var db' := Committed(schema, db, req, delta);
    CommitTableGrows(schema, p, db, req, delta);
    CommitParts(schema, db, req, delta);
    RowsKnown(db);
    TxsBounded(db);
    CommitIds(schema, db, req, delta);
    assert db'.events[0] == db'.events[..|db.events|][0];
  }

  lemma EraseTableGrows(p: Db, db: Db, ex: Excision)
    requires Pristine(p) && GrownFrom(p, db) && Excising(db, ex)
    ensures StartsWith(Erase(db, ex).table, p.table)
  {
    hide Sound, Erase, Pristine, GrownFrom, StartsWith;
    var keep := set f | f in db.table && !Speaks(f.key, ex.entity);
    NextAbove(db);
    EraseParts(db, ex);
    GrownStarts(p, db);
    forall f | f in p.table ensures f in keep {
      SystemRow(p, f);
      assert f in p.table + db.table[|p.table|..];
    }
    RemainingStarts(p.table, db.table[|p.table|..], keep, db.nextRow, MarkerKeys(db, ex), db.next);
  }

  lemma ErasedIsLater(p: Db, db: Db, ex: Excision, f: Fact)
    requires Pristine(p) && GrownFrom(p, db) && Excising(db, ex) && f in Erased(db.table, ex.entity)
    ensures f.tx > GENESIS_TX && (f.rx.Some? ==> f.rx.value > GENESIS_TX)
  {
    hide Pristine;
    assert RowOk(db, f);
    var i :| 0 <= i < |db.table| && db.table[i] == f;
    if i < |p.table| {
      assert db.table[..|p.table|][i] == f;
      SystemRow(p, f);
    }
  }

  lemma GenesisEvent(p: Db, db: Db, ev: Event)
    requires GrownFrom(p, db) && Sound(db) && ev in db.events && ev.tx == GENESIS_TX
    ensures p.events != [] && ev == p.events[0]
  {
    SoundHas(db);
    assert db.events[0] in db.events;
    SameTx(db, ev, db.events[0]);
  }

  lemma GenesisKept(p: Db, db: Db, ex: Excision)
    requires Pristine(p) && GrownFrom(p, db) && Excising(db, ex)
    ensures GENESIS_TX !in RedactedTxs(db, ex.entity)
  {
    hide Sound, GrownFrom, RedactedTxs;
    forall f | f in Erased(db.table, ex.entity) ensures f.tx != GENESIS_TX && f.rx != Some(GENESIS_TX) {
      ErasedIsLater(p, db, ex, f);
    }
    forall ev | ev in db.events && ev.tx == GENESIS_TX ensures ev == p.events[0] {
      GenesisEvent(p, db, ev);
    }
    GenesisSilent(p, db, ex);
    NotRedacted(db, ex.entity, GENESIS_TX);
  }

  lemma GenesisSilent(p: Db, db: Db, ex: Excision)
    requires Pristine(p) && GrownFrom(p, db) && Excising(db, ex)
    ensures !PayloadMentions(p.events[0].payload.value, SelectorOf(db.ids, ex.entity))
  {
    var payload, selector := p.events[0].payload.value, SelectorOf(db.ids, ex.entity);
    forall id | id in p.ids ensures p.ids[id].selector != selector {
      assert id < p.next && id != ex.entity;
      assert db.ids[id].selector != db.ids[ex.entity].selector;
    }
  }

  lemma EraseGrows(p: Db, db: Db, ex: Excision)
    requires Pristine(p) && GrownFrom(p, db) && Excising(db, ex)
    ensures GrownFrom(p, Erase(db, ex))
  {
    EraseTableGrows(p, db, ex);
    GenesisKept(p, db, ex);
    EraseParts(db, ex);
    TxsBounded(db);
    EraseEventAt(db, ex, 0);
  }

  // ----- created identities -----

  lemma CommitCreatedAt(schema: Schema, db: Db, req: Request, delta: Delta, i: nat, j: nat)
    requires Committing(schema, db, req, delta) && j == i + 1 <= |db.events|
    requires j < |db.events| ==> CreatedOk(db.ids, db.events[i].tx, db.events[j])
    ensures var db' := Committed(schema, db, req, delta);
      j < |db'.events| && CreatedOk(db'.ids, db'.events[i].tx, db'.events[j])
  {
    hide Sound, Resolved, Plan, Committed, RecordOf;
    var db', n := Committed(schema, db, req, delta), |db.events|;
    EventsBelow(db);
    RowsKnown(db);
    CommitParts(schema, db, req, delta);
    CommitIds(schema, db, req, delta);
    assert db'.events[i] == db'.events[..n][i] == db.events[i];
    if j < n {
      assert db'.events[j] == db'.events[..n][j] == db.events[j];
      CreatedSame(db.ids, db'.ids, db.next, db.events[i].tx, db.events[j]);
    } else {
      NewRecord(schema, db, req, delta);
      RecordCreates(db'.ids, db'.table, db.next - 1, db'.events[n].tx);
    }
  }

  lemma RecordCreates(ids: map<int, Identity>, table: seq<Fact>, before: int, tx: int)
    requires before < tx
    ensures PayloadCreated(RecordOf(ids, table, before, tx)) == CreatedBy(ids, before + 1, tx)
  {
  }

  lemma CreatedSame(ids: map<int, Identity>, ids': map<int, Identity>, next: int, before: int, ev: Event)
    requires SameIds(ids, ids', next) && ev.tx < next && CreatedOk(ids, before, ev)
    ensures CreatedOk(ids', before, ev)
  {
    assert forall id :: id < next ==> SelectorOf(ids', id) == SelectorOf(ids, id);
    assert CreatedBy(ids', before + 1, ev.tx) == CreatedBy(ids, before + 1, ev.tx);
  }

  lemma EraseCreatedAt(db: Db, ex: Excision, i: nat, j: nat)
    requires Sound(db) && j == i + 1 <= |db.events| && (j < |db.events| ==> CreatedOk(db.ids, db.events[i].tx, db.events[j]))
    ensures var db' := Erase(db, ex); j < |db'.events| && CreatedOk(db'.ids, db'.events[i].tx, db'.events[j])
  {
    hide Sound, Erase, RedactedTxs;
    var db', n := Erase(db, ex), |db.events|;
    EventsBelow(db);
    RowsKnown(db);
    EraseParts(db, ex);
    if j < n {
      EraseEventAt(db, ex, j);
      CreatedSame(db.ids, db'.ids, db.next, db.events[i].tx, db.events[j]);
    }
  }

  lemma CommitCreated(schema: Schema, db: Db, req: Request, delta: Delta)
    requires Committing(schema, db, req, delta) && CreatedRecorded(db)
    ensures CreatedRecorded(Committed(schema, db, req, delta))
  {
    var db' := Committed(schema, db, req, delta);
    CommitParts(schema, db, req, delta);
    hide Committing, Committed, CreatedOk;
    forall i, j | 0 <= i < j < |db'.events| && j == i + 1 ensures CreatedOk(db'.ids, db'.events[i].tx, db'.events[j]) {
      CommitCreatedAt(schema, db, req, delta, i, j);
    }
  }

  lemma EraseCreated(db: Db, ex: Excision)
    requires Sound(db) && CreatedRecorded(db)
    ensures CreatedRecorded(Erase(db, ex))
  {
    var db' := Erase(db, ex);
    EraseParts(db, ex);
    hide Sound, Erase, CreatedOk;
    forall i, j | 0 <= i < j < |db'.events| && j == i + 1 ensures CreatedOk(db'.ids, db'.events[i].tx, db'.events[j]) {
      EraseCreatedAt(db, ex, i, j);
    }
  }

  // ----- runs -----

  ghost predicate Retains(p: Db, db: Db) {
    GrownFrom(p, db) && LayeredById(db.table) && CreatedRecorded(db)
  }

  lemma StepRetains(schema: Schema, p: Db, db: Db, step: Step)
    requires Pristine(p) && Sound(db) && Admissible(db, step) && Retains(p, db)
    ensures Retains(p, Next(schema, db, step).0)
  {
    var (db', reply) := Next(schema, db, step);
    StepCases(schema, db, step);
    hide Pristine, GrownFrom, LayeredById, CreatedRecorded;
    if reply.Applied? && step.Write? {
      var delta := DeltaOf(schema, db, step.req);
      CommitGrows(schema, p, db, step.req, delta);
      CommitLayered(schema, db, step.req, delta);
      CommitCreated(schema, db, step.req, delta);
    } else if reply.Applied? {
      EraseGrows(p, db, step.ex);
      EraseLayered(db, step.ex);
      EraseCreated(db, step.ex);
    }
  }

  lemma PristineRetains(p: Db)
    requires Pristine(p)
    ensures Retains(p, p)
  {
    assert p.table[..|p.table|] == p.table;
    forall f, g | f in p.table && g in p.table && f.id < g.id ensures f.key == g.key ==> f.rx.Some? && f.rx.value <= g.tx {
      if f.key == g.key { LiveDistinct(p, f, g); }
      assert RowOk(p, f) && RowOk(p, g);
      SystemRow(p, g);
      assert forall tx :: tx in Txs(p.events) ==> tx == p.events[0].tx;
    }
  }

  lemma {:induction false} RunRetains(schema: Schema, dbs: seq<Db>, steps: seq<Step>, i: nat)
    requires IsRun(schema, dbs, steps) && i < |dbs| && Pristine(dbs[0])
    ensures Retains(dbs[0], dbs[i])
  {
    hide *;
    RunLength(schema, dbs, steps);
    if i == 0 {
      PristineRetains(dbs[0]);
    } else {
      RunRetains(schema, dbs, steps, i - 1);
      RunStep(schema, dbs, steps, i - 1);
      StepRetains(schema, dbs[0], dbs[i - 1], steps[i - 1]);
    }
  }

  lemma IsRestorable(p: Db, db: Db)
    requires Sound(db) && Retains(p, db)
    ensures Restorable(p, db)
  {
    LayeredIs(db.table);
  }
}
