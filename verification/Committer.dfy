/** The commit on the tables, in the order it is carried out: new rows first, then the
    retractions one by one, then the blobs nothing refers to any more. */
module Committer {
  import opened Facts
  import opened Planner
  import opened Localization
  import opened Identities
  import opened History
  import opened Store
  import opened Soundness
  import opened Derived
  import opened Snapshot

  function TextOf(f: Fact): set<TextRow> {
    if IsText(f.key.v) then {TextRow(f.id, f.key.v)} else {}
  }

  function HashOf(f: Fact): set<int> {
    if IsIndirect(f.key.v) then {f.key.v.cell} else {}
  }

  function GoneOf(retractions: seq<Fact>): set<Fact> {
    set f | f in retractions
  }

  lemma RowsSnoc(rows: seq<Fact>, f: Fact)
    ensures TextRows(rows + [f]) == TextRows(rows) + TextOf(f)
    ensures Hashes(rows + [f]) == Hashes(rows) + HashOf(f)
  {
    assert forall g :: g in rows + [f] <==> g in rows || g == f;
  }

  lemma FreshSnoc(next: nat, keys: seq<Triple>, tx: int, i: nat)
    requires i < |keys|
    ensures Fresh(next, keys[..i + 1], tx) == Fresh(next, keys[..i], tx) + [Fact(next + i, keys[i], tx, None)]
  {
  }

  lemma {:induction false} RetiredMore(schema: Schema, table: seq<Fact>, gone: set<Fact>, f: Fact, tx: int)
    requires f.rx.None?
    ensures Retired(schema, Retired(schema, table, gone, tx), {f}, tx) == Retired(schema, table, gone + {f}, tx)
  {
    if table != [] {
      RetiredMore(schema, table[1..], gone, f, tx);
      var head := RetireRow(schema, table[0], gone, tx);
      RetiredConcat(schema, head, Retired(schema, table[1..], gone, tx), {f}, tx);
      if head != [] {
        assert head == [head[0]];
        assert Retired(schema, head, {f}, tx) == RetireRow(schema, head[0], {f}, tx) + Retired(schema, [], {f}, tx);
      }
    }
  }

  /** The row with the id of `f`, stamped or deleted; the other rows stay. */
  lemma StampById(schema: Schema, table: seq<Fact>, f: Fact, tx: int, i: nat)
    requires ById(table) && i < |table| && f in table
    ensures Retired(schema, table[..i + 1], {f}, tx)
         == Retired(schema, table[..i], {f}, tx)
            + (if table[i].id != f.id then [table[i]] else if f.key.a in schema.nohistory then [] else [f.(rx := Some(tx))])
  {
    var row := table[i];
    assert table[..i + 1] == table[..i] + [row];
    RetiredConcat(schema, table[..i], [row], {f}, tx);
    if row.id == f.id { SameId(table, row, f); }
    assert Retired(schema, [row], {f}, tx) == RetireRow(schema, row, {f}, tx) + Retired(schema, [], {f}, tx);
  }

  class Tables {
    var table: seq<Fact>
    var nextRow: nat
    var fts: set<TextRow>
    var blobs: set<int>

    constructor (db: Db)
      ensures table == db.table && nextRow == db.nextRow && fts == db.fts && blobs == db.blobs
    {
      table, nextRow, fts, blobs := db.table, db.nextRow, db.fts, db.blobs;
    }

    /** Inserts a live row; the unique index on live facts refuses a second one with its key. */
    method InsertFact(key: Triple, tx: int) returns (ok: bool)
      modifies this
      ensures ok <==> !LiveKey(old(table), key)
      ensures var row := Fact(old(nextRow), key, tx, None);
        ok ==>
          && table == old(table) + [row] && nextRow == old(nextRow) + 1
          && fts == old(fts) + TextOf(row) && blobs == old(blobs) + HashOf(row)
    {
      if IsIndirect(key.v) {
        blobs := blobs + {key.v.cell};
      }
      if exists f :: f in table && f.rx.None? && f.key == key {
        return false;
      }
      var id := nextRow;
      table := table + [Fact(id, key, tx, None)];
      nextRow := nextRow + 1;
      if IsText(key.v) {
        fts := fts + {TextRow(id, key.v)};
      }
      return true;
    }

    /** Retracts a row: stamps it, or deletes it when its attribute keeps no history. */
    method RetractFact(schema: Schema, f: Fact, tx: int)
      requires ById(table) && f in table && f.rx.None?
      modifies this
      ensures table == Retired(schema, old(table), {f}, tx) && nextRow == old(nextRow)
      ensures fts == old(fts) - TextOf(f) && blobs == old(blobs)
    {
      var rows := [];
      for i := 0 to |table|
        invariant table == old(table) && nextRow == old(nextRow) && fts == old(fts) && blobs == old(blobs)
        invariant rows == Retired(schema, table[..i], {f}, tx)
      {
        StampById(schema, table, f, tx, i);
        if table[i].id != f.id {
          rows := rows + [table[i]];
        } else if f.key.a !in schema.nohistory {
          rows := rows + [f.(rx := Some(tx))];
        }
      }
      assert table[..|table|] == table;
      table := rows;
      if IsText(f.key.v) {
        fts := fts - {TextRow(f.id, f.key.v)};
      }
    }

    /** Drops the hashes of the retracted rows that no row refers to. */
    method CollectGarbage(retractions: seq<Fact>)
      modifies `blobs
      ensures blobs == old(blobs) - Garbage(table, retractions)
    {
      for i := 0 to |retractions|
        invariant blobs == old(blobs) - Garbage(table, retractions[..i])
      {
        assert retractions[..i + 1] == retractions[..i] + [retractions[i]];
        RowsSnoc(retractions[..i], retractions[i]);
        var v := retractions[i].key.v;
        if IsIndirect(v) && !exists f :: f in table && IsIndirect(f.key.v) && f.key.v.cell == v.cell {
          blobs := blobs - {v.cell};
        }
      }
      assert retractions[..|retractions|] == retractions;
    }

    method InsertAll(keys: seq<Triple>, tx: int) returns (ok: bool)
      requires forall i :: 0 <= i < |keys| ==> !LiveKey(table, keys[i])
      requires forall i, j :: 0 <= i < j < |keys| ==> keys[i] != keys[j]
      modifies this
      ensures ok
      ensures var added := Fresh(old(nextRow), keys, tx);
        && table == old(table) + added && nextRow == old(nextRow) + |keys|
        && fts == old(fts) + TextRows(added) && blobs == old(blobs) + Hashes(added)
    {
      hide TextRows, Hashes;
      ghost var next := nextRow;
      ok := true;
      NoText();
      assert Fresh(next, keys[..0], tx) == [];
      for i := 0 to |keys|
        invariant ok && nextRow == next + i
        invariant var added := Fresh(next, keys[..i], tx);
          table == old(table) + added && fts == old(fts) + TextRows(added) && blobs == old(blobs) + Hashes(added)
      {
        FreshSnoc(next, keys, tx, i);
        RowsSnoc(Fresh(next, keys[..i], tx), Fact(next + i, keys[i], tx, None));
        StillRoom(old(table), next, keys, tx, i);
        ok := InsertFact(keys[i], tx);
      }
      assert keys[..|keys|] == keys;
    }

    /** The commit: it cannot hit the live index, although rows are inserted before any is
        retracted, and it leaves exactly the tables of the committed store. */
    method Commit(schema: Schema, keys: seq<Triple>, retractions: seq<Fact>, tx: int) returns (ok: bool)
      requires ById(table) && forall f :: f in table ==> f.id < nextRow
      requires forall i :: 0 <= i < |keys| ==> !LiveKey(table, keys[i])
      requires forall i, j :: 0 <= i < j < |keys| ==> keys[i] != keys[j]
      requires ById(retractions) && forall f :: f in retractions ==> f in table && f.rx.None?
      modifies this
      ensures ok
      ensures var gone, added := GoneOf(retractions), Fresh(old(nextRow), keys, tx);
        && table == Install(schema, old(table), old(nextRow), gone, keys, tx)
        && nextRow == old(nextRow) + |keys|
        && fts == old(fts) + TextRows(added) - TextRows(retractions)
        && blobs == old(blobs) + Hashes(added) - Garbage(table, retractions)
    {
      hide TextRows, Hashes, Garbage, Fresh;
      ghost var was, added := table, Fresh(nextRow, keys, tx);
      ok := InsertAll(keys, tx);
      FreshById(was, old(nextRow), keys, tx);
      FreshIds(was, old(nextRow), keys, tx);
      RetractAll(schema, retractions, tx);
      FreshStays(schema, was, added, retractions, tx);
      CollectGarbage(retractions);
    }

    method RetractAll(schema: Schema, retractions: seq<Fact>, tx: int)
      requires ById(table) && ById(retractions) && forall f :: f in retractions ==> f in table && f.rx.None?
      modifies this
      ensures table == Retired(schema, old(table), GoneOf(retractions), tx) && nextRow == old(nextRow)
      ensures fts == old(fts) - TextRows(retractions) && blobs == old(blobs)
    {
      hide TextRows, Hashes, Retired;
      ghost var full := table;
      assert GoneOf(retractions[..0]) == {};
      RetiredUntouched(schema, full, {}, tx);
      assert TextRows(retractions[..0]) == {} by { NoText(); }
      for i := 0 to |retractions|
        invariant table == Retired(schema, full, GoneOf(retractions[..i]), tx) && nextRow == old(nextRow)
        invariant fts == old(fts) - TextRows(retractions[..i]) && blobs == old(blobs)
      {
        var f := retractions[i];
        assert retractions[..i + 1] == retractions[..i] + [f];
        ghost var gone := GoneOf(retractions[..i]);
        assert GoneOf(retractions[..i + 1]) == gone + {f};
        RowsSnoc(retractions[..i], f);
        StillThere(schema, full, retractions, i, tx);
        RetiredMore(schema, full, gone, f, tx);
        RetiredById(schema, full, gone, tx);
        RetractFact(schema, f, tx);
      }
      assert retractions[..|retractions|] == retractions;
    }
  }

  lemma NoText()
    ensures TextRows([]) == {} && Hashes([]) == {}
  {
  }

  /** The next key is neither live nor among the keys inserted before it. */
  lemma StillRoom(was: seq<Fact>, next: nat, keys: seq<Triple>, tx: int, i: nat)
    requires i < |keys| && !LiveKey(was, keys[i]) && forall j :: 0 <= j < i ==> keys[j] != keys[i]
    ensures !LiveKey(was + Fresh(next, keys[..i], tx), keys[i])
  {
    var added := Fresh(next, keys[..i], tx);
    forall f | f in added ensures f.key != keys[i] {
      var j :| 0 <= j < i && added[j] == f;
    }
  }

  lemma FreshIds(was: seq<Fact>, next: nat, keys: seq<Triple>, tx: int)
    requires forall f :: f in was ==> f.id < next
    ensures forall f, g :: f in was && g in Fresh(next, keys, tx) ==> f.id < g.id
  {
  }

  lemma StillThere(schema: Schema, full: seq<Fact>, retractions: seq<Fact>, i: nat, tx: int)
    requires i < |retractions| && ById(retractions) && retractions[i] in full
    ensures retractions[i] in Retired(schema, full, GoneOf(retractions[..i]), tx)
  {
    RetiredRows(schema, full, GoneOf(retractions[..i]), tx, retractions[i]);
  }

  /** New rows are not retracted. */
  lemma FreshStays(schema: Schema, was: seq<Fact>, added: seq<Fact>, retractions: seq<Fact>, tx: int)
    requires (forall f :: f in retractions ==> f in was) && (forall f, g :: f in was && g in added ==> f.id < g.id)
    ensures var gone := GoneOf(retractions);
      Retired(schema, was + added, gone, tx) == Retired(schema, was, gone, tx) + added
  {
    var gone := GoneOf(retractions);
    RetiredConcat(schema, was, added, gone, tx);
    RetiredUntouched(schema, added, gone, tx);
  }

  /** The rows of a planned transaction meet what the commit asks for. */
  lemma PlannedCommit(schema: Schema, db: Db, req: Request, delta: Delta)
    requires Committing(schema, db, req, delta)
    ensures ById(db.table) && ById(delta.retractions) && (forall f :: f in db.table ==> f.id < db.nextRow)
    ensures forall f :: f in delta.retractions ==> f in db.table && f.rx.None?
    ensures var keys := KeysOf(db, req, delta);
      && (forall i :: 0 <= i < |keys| ==> !LiveKey(db.table, keys[i]))
      && (forall i, j :: 0 <= i < j < |keys| ==> keys[i] != keys[j])
  {
    var keys := KeysOf(db, req, delta);
    PlanRefines(schema, LiveOf(db.table), req.ops);
    forall f | f in db.table ensures f.id < db.nextRow {
      assert RowOk(db, f);
    }
    forall i | 0 <= i < |keys| ensures !LiveKey(db.table, keys[i]) {
      KeyNotLive(schema, db, req, delta, i);
    }
    forall i, j | 0 <= i < j < |keys| ensures keys[i] != keys[j] {
      NewKeysDiffer(schema, db, req, delta, i, j);
    }
  }

  lemma KeyNotLive(schema: Schema, db: Db, req: Request, delta: Delta, i: nat)
    requires Committing(schema, db, req, delta) && i < |KeysOf(db, req, delta)|
    ensures !LiveKey(db.table, KeysOf(db, req, delta)[i])
  {
    NewKeyAddable(schema, db, req, delta, i);
    hide Committing;
    forall f | f in db.table && f.rx.None? ensures f.key in Keys(LiveOf(db.table)) {
      assert f in LiveOf(db.table);
    }
  }

  /** Carrying out a planned transaction on the tables gives the tables of the committed store. */
  method CommitPlanned(tables: Tables, schema: Schema, ghost db: Db, ghost req: Request, ghost delta: Delta,
                       keys: seq<Triple>, retractions: seq<Fact>, tx: int) returns (ok: bool)
    requires Committing(schema, db, req, delta)
    requires tables.table == db.table && tables.nextRow == db.nextRow && tables.fts == db.fts && tables.blobs == db.blobs
    requires keys == KeysOf(db, req, delta) && retractions == delta.retractions && tx == TxOf(db, req, delta)
    modifies tables
    ensures ok
    ensures var db' := Committed(schema, db, req, delta);
      tables.table == db'.table && tables.nextRow == db'.nextRow && tables.fts == db'.fts && tables.blobs == db'.blobs
  {
    hide Committing, Committed, KeysOf, TxOf, LiveKey, TextRows, Hashes, Garbage, Install, Fresh;
    PlannedCommit(schema, db, req, delta);
    CommitParts(schema, db, req, delta);
    CommitDerived(schema, db, req, delta);
    ok := tables.Commit(schema, keys, retractions, tx);
  }
}
