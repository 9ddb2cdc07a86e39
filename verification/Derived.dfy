/** The derived tables: the full-text rows are exactly the live text facts and the blobs are
    exactly the hashes that facts refer to, in every reachable store, as a rebuild from the
    fact table would compute them. */
module Derived {
  import opened Facts
  import opened Planner
  import opened Localization
  import opened Identities
  import opened History
  import opened Store
  import opened Soundness
  import opened Runs

  /** What the repair of a damaged store recomputes from the fact table. */
  function RebuiltFts(table: seq<Fact>): set<TextRow> {
    TextRows(LiveOf(table))
  }

  function RebuiltBlobs(table: seq<Fact>): set<int> {
    Hashes(table)
  }

  ghost predicate InStep(db: Db) {
    db.fts == RebuiltFts(db.table) && db.blobs == RebuiltBlobs(db.table)
  }

  // ----- the effect of a commit on the derived tables -----

  lemma TextRowsSplit(s: seq<Fact>, t: seq<Fact>)
    ensures TextRows(s + t) == TextRows(s) + TextRows(t)
    ensures Hashes(s + t) == Hashes(s) + Hashes(t)
  {
    assert forall f :: f in s + t <==> f in s || f in t;
  }

  lemma InstallFts(schema: Schema, table: seq<Fact>, next: nat, gone: seq<Fact>, keys: seq<Triple>, tx: int)
    requires ById(table) && (forall f :: f in table ==> f.id < next) && (forall f :: f in gone ==> f in table && f.rx.None?)
    ensures var taken := set f | f in gone;
      RebuiltFts(Install(schema, table, next, taken, keys, tx))
      == RebuiltFts(table) + TextRows(Fresh(next, keys, tx)) - TextRows(gone)
  {
    var taken := set f | f in gone;
    var kept := Keep(table, set f | f in table && f.rx.None? && f !in taken);
    var added := Fresh(next, keys, tx);
    LiveInstalled(schema, table, next, taken, keys, tx);
    TextRowsSplit(kept, added);
    assert TextRows(kept) == RebuiltFts(table) - TextRows(gone) by {
      forall f, g | f in table && g in table && f.id == g.id ensures f == g {
        SameId(table, f, g);
      }
    }
    forall r | r in TextRows(added) ensures r !in TextRows(gone) {
      var f :| f in added && r.id == f.id;
      assert f.id >= next;
    }
  }

  lemma InstallBlobs(schema: Schema, table: seq<Fact>, next: nat, gone: seq<Fact>, keys: seq<Triple>, tx: int)
    ensures var taken := set f | f in gone;
      var after := Install(schema, table, next, taken, keys, tx);
      RebuiltBlobs(after) == RebuiltBlobs(table) + Hashes(Fresh(next, keys, tx)) - Garbage(after, gone)
  {
    var taken := set f | f in gone;
    var retired, added := Retired(schema, table, taken, tx), Fresh(next, keys, tx);
    TextRowsSplit(retired, added);
    forall h | h in Hashes(retired) ensures h in Hashes(table) {
      var f :| f in retired && IsIndirect(f.key.v) && f.key.v.cell == h;
      RetiredRows(schema, table, taken, tx, f);
    }
    forall h | h in Hashes(table) && h !in Hashes(gone) ensures h in Hashes(retired) {
      var f :| f in table && IsIndirect(f.key.v) && f.key.v.cell == h;
      RetiredRows(schema, table, taken, tx, f);
    }
  }

  lemma CommitDerived(schema: Schema, db: Db, req: Request, delta: Delta)
    ensures var db', added := Committed(schema, db, req, delta), Fresh(db.nextRow, KeysOf(db, req, delta), TxOf(db, req, delta));
      && db'.fts == db.fts + TextRows(added) - TextRows(delta.retractions)
      && db'.blobs == db.blobs + Hashes(added) - Garbage(db'.table, delta.retractions)
  {
    hide NewKeys, NewIdentities, CreatedBy, ToTuples, AssertedBy, RetractedBy, Install, Garbage, TextRows, Hashes, Fresh, TimeKeys, OriginTime;
  }

  lemma CommitInStep(schema: Schema, db: Db, req: Request, delta: Delta)
    requires ById(db.table) && (forall f :: f in db.table ==> f.id < db.nextRow) && InStep(db)
    requires forall f :: f in delta.retractions ==> f in db.table && f.rx.None?
    ensures InStep(Committed(schema, db, req, delta))
  {
    var keys, tx := KeysOf(db, req, delta), TxOf(db, req, delta);
    CommitParts(schema, db, req, delta);
    CommitDerived(schema, db, req, delta);
    InstallFts(schema, db.table, db.nextRow, delta.retractions, keys, tx);
    InstallBlobs(schema, db.table, db.nextRow, delta.retractions, keys, tx);
  }

  lemma EraseFts(table: seq<Fact>, entity: int, next: nat, keys: seq<Triple>, tx: int)
    requires ById(table) && forall i :: 0 <= i < |keys| ==> !IsText(keys[i].v)
    ensures RebuiltFts(Remaining(table, entity) + Fresh(next, keys, tx)) == RebuiltFts(table) - TextRows(Erased(table, entity))
  {
    var rest, added := Remaining(table, entity), Fresh(next, keys, tx);
    LiveConcat(rest, added);
    TextRowsSplit(LiveOf(rest), LiveOf(added));
    forall f, g | f in table && g in table && f.id == g.id ensures f == g {
      SameId(table, f, g);
    }
  }

  lemma EraseDerived(db: Db, ex: Excision)
    ensures Erase(db, ex).fts == db.fts - TextRows(Erased(db.table, ex.entity))
    ensures Erase(db, ex).blobs == db.blobs * Hashes(Remaining(db.table, ex.entity))
  {
  }

  lemma RemainingHashes(table: seq<Fact>, entity: int)
    ensures Hashes(Remaining(table, entity)) <= Hashes(table)
  {
  }

  lemma EraseInStep(db: Db, ex: Excision)
    requires ById(db.table) && InStep(db)
    ensures InStep(Erase(db, ex))
  {
    hide Erase, Remaining, Erased, LiveOf, ById;
    var keys := MarkerKeys(db, ex);
    EraseParts(db, ex);
    EraseDerived(db, ex);
    EraseFts(db.table, ex.entity, db.nextRow, keys, db.next);
    var rest, added := Remaining(db.table, ex.entity), Fresh(db.nextRow, keys, db.next);
    TextRowsSplit(rest, added);
    assert Hashes(added) == {};
    RemainingHashes(db.table, ex.entity);
  }

  lemma StepInStep(schema: Schema, db: Db, step: Step)
    requires Sound(db) && Admissible(db, step) && InStep(db)
    ensures InStep(Next(schema, db, step).0)
  {
    StepCases(schema, db, step);
    var (db', reply) := Next(schema, db, step);
    if reply.Applied? && step.Write? {
      RetractionsSpareReceipts(schema, db, step.req, DeltaOf(schema, db, step.req));
      forall f | f in db.table ensures f.id < db.nextRow {
        assert RowOk(db, f);
      }
      CommitInStep(schema, db, step.req, DeltaOf(schema, db, step.req));
    } else if reply.Applied? {
      EraseInStep(db, step.ex);
    }
  }

  /** In every state of every run the derived tables equal their rebuild. */
  lemma {:induction false} RunInStep(schema: Schema, dbs: seq<Db>, steps: seq<Step>, i: nat)
    requires IsRun(schema, dbs, steps) && i < |dbs| && InStep(dbs[0])
    ensures InStep(dbs[i])
  {
    hide *;
    RunLength(schema, dbs, steps);
    if i > 0 {
      RunInStep(schema, dbs, steps, i - 1);
      RunStep(schema, dbs, steps, i - 1);
      StepInStep(schema, dbs[i - 1], steps[i - 1]);
    }
  }

  /** What that means row by row, in every reachable state: the full-text rows are the live rows
      with a text, stored inline or as a blob, and the blobs are those that some row refers to. */
  lemma RunIndexed(schema: Schema, dbs: seq<Db>, steps: seq<Step>, i: nat)
    requires IsRun(schema, dbs, steps) && i < |dbs| && InStep(dbs[0])
    ensures forall t :: t in dbs[i].fts <==> exists f :: f in dbs[i].table && f.rx.None? && f.key.v.tag in {4, 8} && t == TextRow(f.id, f.key.v)
    ensures forall b :: b in dbs[i].blobs <==> exists f :: f in dbs[i].table && f.key.v.tag in {7, 8, 9} && f.key.v.cell == b
  {
    hide IsRun;
    RunInStep(schema, dbs, steps, i);
  }
}
