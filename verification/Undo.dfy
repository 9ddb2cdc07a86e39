/** Undo: one ordinary transaction whose operations are read off the fact table.  Rows that the
    target asserted and that are still live are retracted; rows that it retracted are asserted
    again; both in row order. */
module Undo {
  import opened Facts
  import opened Planner
  import opened Localization
  import opened Identities
  import opened History
  import opened Replay
  import opened Store
  import opened Soundness
  import opened Runs
  import opened Constraints
  import opened Effects

  function Exact(k: Triple): Op {
    Retract(k.e, Some(k.a), Some(k.v))
  }

  function UndoOf(f: Fact, target: int): seq<Op> {
    if f.tx == target && f.key.e != target && f.rx.None? then [Exact(f.key)]
    else if f.rx == Some(target) then [Assert(f.key)]
    else []
  }

  function UndoOps(table: seq<Fact>, target: int): seq<Op> {
    if table == [] then []
    else UndoOps(table[..|table| - 1], target) + UndoOf(table[|table| - 1], target)
  }

  /** Reads the operations off the table in row order. */
  method UndoOperations(table: seq<Fact>, target: int) returns (r: Result<seq<Op>>)
    ensures r == if HasReceipt(table, target) then Ok(UndoOps(table, target)) else Err(NotFound)
  {
    if !HasReceipt(table, target) {
      return Err(NotFound);
    }
    var ops := [];
    for i := 0 to |table|
      invariant ops == UndoOps(table[..i], target)
    {
      assert table[..i + 1][..i] == table[..i];
      var f := table[i];
      if f.tx == target && f.rx.None? && f.key.e != target {
        ops := ops + [Exact(f.key)];
      } else if f.rx == Some(target) {
        ops := ops + [Assert(f.key)];
      }
    }
    assert table[..|table|] == table;
    return Ok(ops);
  }

  /** The fact that records what was undone. */
  function UndoesKey(target: int): Triple {
    Triple(0, ATTR_UNDOES, Value(TAG_REF, target))
  }

  function UndoPlan(table: seq<Fact>, target: int): seq<Op> {
    UndoOps(table, target) + [Assert(UndoesKey(target))]
  }

  /** An undo is a request without new identities. */
  ghost predicate IsUndo(table: seq<Fact>, target: int, req: Request) {
    target > GENESIS_TX && HasReceipt(table, target) && req.claims == [] && req.ops == UndoPlan(table, target)
  }

  // ----- what the operations are -----

  function Restored(table: seq<Fact>, target: int): set<Triple> {
    set f | f in table && f.rx == Some(target) :: f.key
  }

  function Removed(table: seq<Fact>, target: int): set<Triple> {
    set f | f in table && f.tx == target && f.key.e != target && f.rx.None? :: f.key
  }

  lemma {:induction false} UndoOpsIn(table: seq<Fact>, target: int, op: Op)
    ensures op in UndoOps(table, target) <==> exists f :: f in table && op in UndoOf(f, target)
  {
    if table != [] {
      var n := |table| - 1;
      UndoOpsIn(table[..n], target, op);
      assert table == table[..n] + [table[n]];
    }
  }

  /** The operations are exactly: assert each restored fact, retract each removed one. */
  lemma UndoOpsAre(table: seq<Fact>, target: int)
    ensures forall op :: op in UndoOps(table, target) <==>
      || (op.Assert? && op.key in Restored(table, target))
      || (exists k :: k in Removed(table, target) && op == Exact(k))
  {
    forall op ensures op in UndoOps(table, target) <==>
      || (op.Assert? && op.key in Restored(table, target))
      || (exists k :: k in Removed(table, target) && op == Exact(k))
    {
      UndoOpsIn(table, target, op);
    }
  }

  // ----- undoing the latest transaction -----

  /** What holds after a prefix of the undo operations: the facts that were never touched and
      those already restored are there, and those already removed are not. */
  ghost predicate Undoing(was: set<Triple>, restored: set<Triple>, removed: set<Triple>, own: set<Triple>,
                          done: seq<Op>, now: set<Triple>) {
    && was - restored <= now && own <= now && now <= was + removed + own
    && (forall k :: k in restored && Assert(k) in done ==> k in now)
    && (forall k :: k in removed && Exact(k) in done ==> k !in now)
  }

  lemma UndoingStep(schema: Schema, shielded: set<int>, was: set<Triple>, restored: set<Triple>, removed: set<Triple>,
                    own: set<Triple>, done: seq<Op>, now: set<Triple>, op: Op)
    requires OneValue(schema, was) && restored <= was && removed !! was && removed !! own
    requires forall k, l :: k in own && l in was ==> k.e != l.e
    requires Undoing(was, restored, removed, own, done, now)
    requires (op.Assert? && op.key in restored) || (exists k :: k in removed && op == Exact(k))
    ensures Undoing(was, restored, removed, own, done + [op], Apply(schema, shielded, now, op))
  {
    if op.Retract? {
      var k :| k in removed && op == Exact(k);
      assert forall l :: Hits(op, l, shielded) <==> l == k;
    }
  }

  /** Undoing restores: from a set in which the restored facts are missing, the removed facts
      are too many and some own facts were added, the operations in any order lead back. */
  lemma {:induction false} UndoRestores(schema: Schema, shielded: set<int>, was: set<Triple>, restored: set<Triple>,
                                        removed: set<Triple>, own: set<Triple>, ops: seq<Op>)
    requires OneValue(schema, was) && restored <= was && removed !! was && removed !! own
    requires forall k, l :: k in own && l in was ==> k.e != l.e
    requires forall op :: op in ops ==> (op.Assert? && op.key in restored) || (exists k :: k in removed && op == Exact(k))
    ensures Undoing(was, restored, removed, own, ops, ApplyAll(schema, shielded, was - restored + removed + own, ops))
  {
    if ops != [] {
      var n := |ops| - 1;
      assert ops == ops[..n] + [ops[n]];
      UndoRestores(schema, shielded, was, restored, removed, own, ops[..n]);
      UndoingStep(schema, shielded, was, restored, removed, own, ops[..n],
                  ApplyAll(schema, shielded, was - restored + removed + own, ops[..n]), ops[n]);
    }
  }

  /** The facts a transaction asserted about itself. */
  function Own(table: seq<Fact>, tx: int): set<Triple> {
    set f | f in table && f.key.e == tx && f.rx.None? :: f.key
  }

  /** A commit, seen through the eyes of its undo: it took the restored facts away and added the
      removed ones and its own. */
  lemma CommitSeenByUndo(schema: Schema, db: Db, req: Request, delta: Delta)
    requires Committing(schema, db, req, delta) && forall f :: f in delta.retractions ==> f.key.a !in schema.nohistory
    ensures var table, tx, was := Committed(schema, db, req, delta).table, TxOf(db, req, delta), Keys(LiveOf(db.table));
      && Restored(table, tx) == Keys(delta.retractions)
      && Restored(table, tx) <= was
      && Removed(table, tx) !! was
      && Keys(LiveOf(table)) == was - Restored(table, tx) + Removed(table, tx) + Own(table, tx)
  {
    var table, tx := Committed(schema, db, req, delta).table, TxOf(db, req, delta);
    RestoredAre(schema, db, req, delta);
    LiveSplit(schema, db, req, delta);
    RemovedAreNew(schema, db, req, delta);
  }

  lemma RestoredAre(schema: Schema, db: Db, req: Request, delta: Delta)
    requires Committing(schema, db, req, delta) && forall f :: f in delta.retractions ==> f.key.a !in schema.nohistory
    ensures Restored(Committed(schema, db, req, delta).table, TxOf(db, req, delta)) == Keys(delta.retractions)
    ensures Keys(delta.retractions) <= Keys(LiveOf(db.table))
  {
    hide Committing, Committed, Sound, KeysOf;
    var table, tx := Committed(schema, db, req, delta).table, TxOf(db, req, delta);
    RetractionsSpareReceipts(schema, db, req, delta);
    CommittingSound(schema, db, req, delta);
    IdsBelow(db, req, delta);
    CommitParts(schema, db, req, delta);
    forall f | f in table && f.rx == Some(tx) ensures f.key in Keys(delta.retractions) {
      var i := CommitRow(schema, db, req, delta, f);
      if f in db.table { SoundRow(db, f); }
    }
    forall f | f in delta.retractions ensures f.key in Restored(table, tx) {
      var g := f.(rx := Some(tx));
      RetiredRows(schema, db.table, Gone(delta), tx, g);
      assert f in Gone(delta) && g in table;
    }
  }

  lemma RemovedAreNew(schema: Schema, db: Db, req: Request, delta: Delta)
    requires Committing(schema, db, req, delta)
    ensures Removed(Committed(schema, db, req, delta).table, TxOf(db, req, delta)) !! Keys(LiveOf(db.table))
  {
    var table, tx := Committed(schema, db, req, delta).table, TxOf(db, req, delta);
    TxsBounded(db);
    forall f | f in table && f.tx == tx && f.rx.None? ensures f.key !in Keys(LiveOf(db.table)) {
      var i := CommitRow(schema, db, req, delta, f);
      assert f in db.table ==> RowOk(db, f);
      NewKeyAddable(schema, db, req, delta, i);
    }
  }

  /** The live keys after a commit: the old ones without the retracted, and the new rows'. */
  lemma CommitLiveKeys(schema: Schema, db: Db, req: Request, delta: Delta)
    requires Committing(schema, db, req, delta)
    ensures Keys(LiveOf(Committed(schema, db, req, delta).table))
         == Keys(LiveOf(db.table)) - Keys(delta.retractions) + (set k | k in KeysOf(db, req, delta))
  {
    hide *;
    var keys, tx, rows := KeysOf(db, req, delta), TxOf(db, req, delta), LiveOf(db.table);
    var kept := Keep(db.table, set f | f in db.table && f.rx.None? && f !in Gone(delta));
    CommittingParts(schema, db, req, delta);
    CommitLive(schema, db, req, delta);
    RetractionsSpareReceipts(schema, db, req, delta);
    KeysAdded(kept, db.nextRow, keys, tx);
    LiveRowsAre(db.table);
    KeptKeys(rows, kept, delta);
  }

  lemma LiveRowsAre(table: seq<Fact>)
    ensures forall f :: f in LiveOf(table) <==> f in table && f.rx.None?
  {
  }

  lemma KeysAdded(kept: seq<Fact>, next: nat, keys: seq<Triple>, tx: int)
    ensures Keys(kept + Fresh(next, keys, tx)) == Keys(kept) + (set k | k in keys)
  {
    var added := Fresh(next, keys, tx);
    assert forall f :: f in kept + added <==> f in kept || f in added;
    assert forall i :: 0 <= i < |keys| ==> added[i].key == keys[i] && added[i] in added;
  }

  lemma KeptKeys(rows: seq<Fact>, kept: seq<Fact>, delta: Delta)
    requires LiveRows(rows) && (forall f :: f in delta.retractions ==> f in rows)
    requires forall f :: f in kept <==> f in rows && f !in Gone(delta)
    ensures Keys(kept) == Keys(rows) - Keys(delta.retractions)
  {
  }

  /** The live rows that transaction `tx` asserted are the new rows. */
  lemma LiveSplit(schema: Schema, db: Db, req: Request, delta: Delta)
    requires Committing(schema, db, req, delta)
    ensures var table, tx := Committed(schema, db, req, delta).table, TxOf(db, req, delta);
      Keys(LiveOf(table)) == Keys(LiveOf(db.table)) - Keys(delta.retractions) + Removed(table, tx) + Own(table, tx)
  {
    hide Committing, Committed, KeysOf, Removed, Own, LiveOf, TxOf;
    var table, tx, keys := Committed(schema, db, req, delta).table, TxOf(db, req, delta), KeysOf(db, req, delta);
    CommitLiveKeys(schema, db, req, delta);
    assert Removed(table, tx) + Own(table, tx) == set k | k in keys by {
      NewRowsAre(schema, db, req, delta);
    }
  }

  lemma NewRowsAre(schema: Schema, db: Db, req: Request, delta: Delta)
    requires Committing(schema, db, req, delta)
    ensures var table, tx := Committed(schema, db, req, delta).table, TxOf(db, req, delta);
      Removed(table, tx) + Own(table, tx) == set k | k in KeysOf(db, req, delta)
  {
    hide Committing, Committed, Sound, KeysOf, TxOf;
    var table, tx, keys := Committed(schema, db, req, delta).table, TxOf(db, req, delta), KeysOf(db, req, delta);
    CommitParts(schema, db, req, delta);
    CommittingSound(schema, db, req, delta);
    IdsBelow(db, req, delta);
    forall f | f in table && f.rx.None? && (f.tx == tx || f.key.e == tx) ensures f.key in keys {
      var i := CommitRow(schema, db, req, delta, f);
      if f in db.table { SoundRow(db, f); }
    }
    forall k | k in keys ensures k in Removed(table, tx) + Own(table, tx) {
      var i :| 0 <= i < |keys| && keys[i] == k;
      var f := Fresh(db.nextRow, keys, tx)[i];
      assert f in table && f.key == k && f.tx == tx && f.rx.None?;
    }
  }

  /** Without new identities, what a commit leaves live about other entities is the outcome of
      its plan. */
  lemma PlainCommit(schema: Schema, db: Db, req: Request, delta: Delta, k: Triple)
    requires Committing(schema, db, req, delta) && req.claims == [] && k.e != 0 && k.e != TxOf(db, req, delta)
    ensures k in Keys(LiveOf(Committed(schema, db, req, delta).table)) <==> k in Outcome(LiveOf(db.table), delta)
  {
    CommitLiveKeys(schema, db, req, delta);
    PlainKeys(schema, db, req, delta, k);
  }

  lemma PlainKeys(schema: Schema, db: Db, req: Request, delta: Delta, k: Triple)
    requires Committing(schema, db, req, delta) && req.claims == [] && k.e != 0 && k.e != TxOf(db, req, delta)
    ensures k in KeysOf(db, req, delta) <==> k in PlannedKeys(delta.assertions)
  {
    var keys, prepared := KeysOf(db, req, delta), Prepare(db, delta, req.claims);
    assert prepared.kept == [];
    NewKeysFrom(db.next, TxOf(db, req, delta), req.at, req.meta, prepared);
    forall i | 0 <= i < |keys| && keys[i] == k ensures k in PlannedKeys(delta.assertions) {
      NewKeyAddable(schema, db, req, delta, i);
      var n := i - 1 - |req.meta|;
      assert i == 1 + |req.meta| + n && delta.assertions[n] in delta.assertions;
    }
    forall n | 0 <= n < |delta.assertions| && delta.assertions[n].key == k ensures k in keys {
      assert keys[1 + |req.meta| + n] == Final(db.next, [], k);
    }
  }

  lemma UndoesApplied(schema: Schema, shielded: set<int>, facts: set<Triple>, table: seq<Fact>, target: int)
    ensures var now := ApplyAll(schema, shielded, facts, UndoOps(table, target));
      forall k: Triple :: k.e != 0 ==> (k in ApplyAll(schema, shielded, facts, UndoPlan(table, target)) <==> k in now)
  {
    var ops, plan := UndoOps(table, target), UndoPlan(table, target);
    assert plan[..|plan| - 1] == ops;
  }

  lemma CommittingParts(schema: Schema, db: Db, req: Request, delta: Delta)
    requires Committing(schema, db, req, delta)
    ensures Sound(db) && LiveRows(LiveOf(db.table)) && Plan(schema, LiveOf(db.table), req.ops) == Ok(delta)
    ensures db.next <= TxOf(db, req, delta)
  {
  }

  lemma UndoParts(table: seq<Fact>, target: int, req: Request)
    requires IsUndo(table, target, req)
    ensures req.claims == [] && req.ops == UndoPlan(table, target)
  {
  }

  lemma OwnEntity(table: seq<Fact>, tx: int)
    ensures forall k :: k in Own(table, tx) ==> k.e == tx
  {
  }

  lemma EntitiesBelow(db: Db)
    requires Sound(db)
    ensures forall k :: k in Keys(LiveOf(db.table)) ==> 0 < k.e < db.next
  {
    forall f | f in LiveOf(db.table) ensures 0 < f.key.e < db.next {
      assert RowOk(db, f) && f.key.e in Mentions(f.key);
    }
  }

  /** The plan of an undo of the latest transaction leads back to the facts before it, next to
      the facts about the undone transaction and the undo itself. */
  lemma UndoOutcome(schema: Schema, db: Db, req: Request, delta: Delta, delta': Delta)
    requires Committing(schema, db, req, delta) && OneValue(schema, Keys(LiveOf(db.table)))
    requires forall f :: f in delta.retractions ==> f.key.a !in schema.nohistory
    requires var table := Committed(schema, db, req, delta).table;
      LiveRows(LiveOf(table)) && Plan(schema, LiveOf(table), UndoPlan(table, TxOf(db, req, delta))) == Ok(delta')
    ensures var table, tx := Committed(schema, db, req, delta).table, TxOf(db, req, delta);
      forall k: Triple :: k.e != 0 ==> (k in Outcome(LiveOf(table), delta') <==> k in Keys(LiveOf(db.table)) + Own(table, tx))
  {
    var table, tx, was := Committed(schema, db, req, delta).table, TxOf(db, req, delta), Keys(LiveOf(db.table));
    assert forall k :: k in was ==> k.e < tx by { EntitiesBelow(db); }
    CommitSeenByUndo(schema, db, req, delta);
    hide *;
    PlanRefines(schema, LiveOf(table), UndoPlan(table, tx));
    UndoLeadsBack(schema, Receipts(LiveOf(table)), was, table, tx);
    UndoesApplied(schema, Receipts(LiveOf(table)), Keys(LiveOf(table)), table, tx);
  }

  lemma UndoLeadsBack(schema: Schema, shielded: set<int>, was: set<Triple>, table: seq<Fact>, tx: int)
    requires OneValue(schema, was) && Restored(table, tx) <= was && Removed(table, tx) !! was
    requires forall k :: k in was ==> k.e < tx
    ensures ApplyAll(schema, shielded, was - Restored(table, tx) + Removed(table, tx) + Own(table, tx), UndoOps(table, tx))
         == was + Own(table, tx)
  {
    hide ApplyAll, UndoOps, Restored, Removed, Own, OneValue;
    var restored, removed, own := Restored(table, tx), Removed(table, tx), Own(table, tx);
    var ops := UndoOps(table, tx);
    OwnEntity(table, tx);
    assert removed !! own by { RemovedEntity(table, tx); }
    UndoOpsAre(table, tx);
    UndoRestores(schema, shielded, was, restored, removed, own, ops);
    AllUndone(was, restored, removed, own, ops, ApplyAll(schema, shielded, was - restored + removed + own, ops));
  }

  lemma RemovedEntity(table: seq<Fact>, tx: int)
    ensures forall k :: k in Removed(table, tx) ==> k.e != tx
  {
  }

  lemma AllUndone(was: set<Triple>, restored: set<Triple>, removed: set<Triple>, own: set<Triple>, ops: seq<Op>, now: set<Triple>)
    requires Undoing(was, restored, removed, own, ops, now) && restored <= was && removed !! was && removed !! own
    requires forall op :: op in ops <==> ((op.Assert? && op.key in restored) || (exists k :: k in removed && op == Exact(k)))
    ensures now == was + own
  {
    assert forall k :: k in restored ==> Assert(k) in ops;
    assert forall k :: k in removed ==> Exact(k) in ops;
  }

  /** Undo of the latest transaction, whenever it commits, returns the live facts about every
      other entity to exactly the set before that transaction, provided history was kept. */
  lemma UndoLatest(schema: Schema, db: Db, req: Request, delta: Delta, undo: Request, delta': Delta)
    requires Committing(schema, db, req, delta) && OneValue(schema, Keys(LiveOf(db.table)))
    requires forall f :: f in delta.retractions ==> f.key.a !in schema.nohistory
    requires var db' := Committed(schema, db, req, delta);
      IsUndo(db'.table, TxOf(db, req, delta), undo) && Committing(schema, db', undo, delta')
    ensures var db' := Committed(schema, db, req, delta);
      var after, own := Keys(LiveOf(Committed(schema, db', undo, delta').table)), {TxOf(db, req, delta), TxOf(db', undo, delta')};
      (set k | k in after && k.e !in own) == Keys(LiveOf(db.table))
  {
    hide *;
    var db', tx, was := Committed(schema, db, req, delta), TxOf(db, req, delta), Keys(LiveOf(db.table));
    var db'' := Committed(schema, db', undo, delta');
    var after, tx' := Keys(LiveOf(db''.table)), TxOf(db', undo, delta');
    CommittingParts(schema, db, req, delta);
    CommittingParts(schema, db', undo, delta');
    CommitParts(schema, db, req, delta);
    UndoParts(db'.table, tx, undo);
    UndoOutcome(schema, db, req, delta, delta');
    CommitSound(schema, db', undo, delta');
    EntitiesBelow(db'');
    EntitiesBelow(db);
    OwnEntity(db'.table, tx);
    forall k: Triple | k.e != 0 && k.e != tx && k.e != tx' ensures k in after <==> k in was {
      PlainCommit(schema, db', undo, delta', k);
    }
  }

  // ----- undoing an older transaction -----

  /** Some restored value wants the cardinality-one slot that `k` holds now. */
  ghost predicate Displaces(schema: Schema, table: seq<Fact>, target: int, k: Triple) {
    k.a !in schema.many && exists l :: l in Restored(table, target) && l != k && SameSlot(l, k)
  }

  lemma {:induction false} Spared(schema: Schema, shielded: set<int>, table: seq<Fact>, target: int, facts: set<Triple>,
                                  k: Triple, ops: seq<Op>)
    requires k in facts && !Displaces(schema, table, target, k) && k !in Removed(table, target) && k.e != 0
    requires forall op :: op in ops ==> op in UndoPlan(table, target)
    ensures k in ApplyAll(schema, shielded, facts, ops)
  {
    if ops != [] {
      var n := |ops| - 1;
      Spared(schema, shielded, table, target, facts, k, ops[..n]);
      var op := ops[n];
      assert op in UndoPlan(table, target);
      UndoOpsAre(table, target);
      if op.Retract? {
        var l :| l in Removed(table, target) && op == Exact(l);
      }
    }
  }

  /** Once a plan has put a new value into a cardinality-one slot, it stays. */
  lemma {:induction false} NewValueStays(schema: Schema, rows: seq<Fact>, ops: seq<Op>, l: Triple, i: nat, n: nat)
    requires LiveRows(rows) && Plan(schema, rows, ops).Ok? && i < n <= |ops| && ops[i] == Assert(l)
    requires l.a !in schema.many && l !in Keys(rows)
    requires forall j :: 0 <= j < |ops| && ops[j].Retract? ==> !Hits(ops[j], l, Receipts(rows))
    ensures l in ApplyAll(schema, Receipts(rows), Keys(rows), ops[..n])
  {
    ApplyAllSnoc(schema, Receipts(rows), Keys(rows), ops, n - 1);
    if n > i + 1 {
      NewValueStays(schema, rows, ops, l, i, n - 1);
      PlanSucceedsExactly(schema, rows, ops);
      assert !RefusesAt(schema, rows, ops, n - 1);
    }
  }

  lemma RemovedAreLive(table: seq<Fact>, target: int)
    requires LiveRows(LiveOf(table))
    ensures Removed(table, target) <= Keys(LiveOf(table))
    ensures forall f :: f in LiveOf(table) && f.tx != target ==> f.key !in Removed(table, target)
  {
    LiveRowsAre(table);
  }

  lemma DisplacedGone(schema: Schema, table: seq<Fact>, target: int, k: Triple)
    requires var rows := LiveOf(table);
      LiveRows(rows) && OneValue(schema, Keys(rows)) && Plan(schema, rows, UndoPlan(table, target)).Ok? && k in Keys(rows)
    requires Displaces(schema, table, target, k)
    ensures var rows := LiveOf(table); k !in ApplyAll(schema, Receipts(rows), Keys(rows), UndoPlan(table, target))
  {
    var rows, ops := LiveOf(table), UndoPlan(table, target);
    var l :| l in Restored(table, target) && l != k && SameSlot(l, k);
    assert l !in Keys(rows);
    UndoOpsAre(table, target);
    RemovedAreLive(table, target);
    assert Assert(l) in ops;
    var i :| 0 <= i < |ops| && ops[i] == Assert(l);
    forall j | 0 <= j < |ops| && ops[j].Retract? ensures !Hits(ops[j], l, Receipts(rows)) {
      assert ops[j] in UndoOps(table, target);
    }
    NewValueStays(schema, rows, ops, l, i, |ops|);
    assert ops[..|ops|] == ops;
    ApplyAllOneValue(schema, Receipts(rows), Keys(rows), ops);
  }

  /** Undo of any transaction, exactly: a fact that another transaction asserted stays live if
      and only if no restored value displaces it from its cardinality-one slot.  In particular
      a value re-asserted after the target is never retracted. */
  lemma UndoSparesExactly(schema: Schema, table: seq<Fact>, target: int, f: Fact)
    requires var rows := LiveOf(table);
      LiveRows(rows) && OneValue(schema, Keys(rows)) && Plan(schema, rows, UndoPlan(table, target)).Ok? && f in rows
    requires f.tx != target && f.key.e != 0
    ensures var rows := LiveOf(table);
      f.key in Outcome(rows, Plan(schema, rows, UndoPlan(table, target)).value) <==> !Displaces(schema, table, target, f.key)
  {
    hide Displaces, Plan, UndoPlan, LiveRows, OneValue;
    var rows, ops := LiveOf(table), UndoPlan(table, target);
    PlanRefines(schema, rows, ops);
    RemovedAreLive(table, target);
    if Displaces(schema, table, target, f.key) {
      DisplacedGone(schema, table, target, f.key);
    } else {
      Spared(schema, Receipts(rows), table, target, Keys(rows), f.key, ops);
    }
  }

  /** The same for the store: what an undo of `target` leaves live of the facts that other
      transactions asserted. */
  lemma UndoOlder(schema: Schema, db: Db, undo: Request, delta: Delta, target: int, f: Fact)
    requires Committing(schema, db, undo, delta) && IsUndo(db.table, target, undo)
    requires OneValue(schema, Keys(LiveOf(db.table))) && f in LiveOf(db.table) && f.tx != target
    ensures f.key in Keys(LiveOf(Committed(schema, db, undo, delta).table)) <==> !Displaces(schema, db.table, target, f.key)
  {
    hide *;
    CommittingParts(schema, db, undo, delta);
    UndoParts(db.table, target, undo);
    EntitiesBelow(db);
    KeyIn(LiveOf(db.table), f);
    UndoSparesExactly(schema, db.table, target, f);
    PlainCommit(schema, db, undo, delta, f.key);
  }

  lemma KeyIn(rows: seq<Fact>, f: Fact)
    requires f in rows
    ensures f.key in Keys(rows)
  {
  }

  /** The excluded case: the target replaced v1 by v2 and a later transaction replaced v2 by v3.
      Undoing the target puts v1 back and takes the later value v3 away. */
  lemma LaterValueDisplaced(e: int, a: int, v1: Value, v2: Value, v3: Value, t1: int, t2: int, t3: int)
    requires e > 0 && t1 < t2 < t3 && e != t1 && e != t2 && e != t3 && v1 != v3
    ensures var schema := Schema({}, {}, {});
      var table := [Fact(1, Triple(e, a, v1), t1, Some(t2)), Fact(2, Triple(e, a, v2), t2, Some(t3)), Fact(3, Triple(e, a, v3), t3, None)];
      var rows := LiveOf(table);
      && LiveRows(rows) && OneValue(schema, Keys(rows)) && Keys(rows) == {Triple(e, a, v3)}
      && Plan(schema, rows, UndoPlan(table, t2)).Ok?
      && Outcome(rows, Plan(schema, rows, UndoPlan(table, t2)).value) == {Triple(e, a, v1), UndoesKey(t2)}
  {
    var one, two, three := Fact(1, Triple(e, a, v1), t1, Some(t2)), Fact(2, Triple(e, a, v2), t2, Some(t3)), Fact(3, Triple(e, a, v3), t3, None);
    UndoPlanOfThree(one, two, three, t2);
    LiveOfThree(one, two, three);
    hide Run, UndoOps, LiveOf;
    DisplacingPlan(one.key, three, t2);
  }

  lemma UndoPlanOfThree(one: Fact, two: Fact, three: Fact, target: int)
    requires one.tx != target && one.rx == Some(target) && two.rx.Some? && two.rx != Some(target) && three.tx != target && three.rx.None?
    ensures UndoPlan([one, two, three], target) == [Assert(one.key), Assert(UndoesKey(target))]
  {
    assert [one, two, three][..2] == [one, two] && [one, two][..1] == [one] && [one][..0] == [];
    assert UndoOps([one], target) == [Assert(one.key)];
    assert UndoOps([one, two], target) == [Assert(one.key)];
  }

  lemma LiveOfThree(one: Fact, two: Fact, three: Fact)
    requires one.rx.Some? && two.rx.Some? && three.rx.None?
    ensures LiveOf([one, two, three]) == [three]
  {
    LiveConcat([one, two], [three]);
    LiveConcat([one], [two]);
    LiveOne(one);
    LiveOne(two);
    LiveOne(three);
    assert [one, two] == [one] + [two] && [one, two, three] == [one, two] + [three];
  }

  lemma DisplacingPlan(back: Triple, now: Fact, target: int)
    requires SameSlot(back, now.key) && back != now.key && now.rx.None? && now.key.e > 0 && now.key.e != now.tx
    ensures var schema, ops := Schema({}, {}, {}), [Assert(back), Assert(UndoesKey(target))];
      && LiveRows([now]) && Keys([now]) == {now.key}
      && Plan(schema, [now], ops).Ok?
      && Outcome([now], Plan(schema, [now], ops).value) == {back, UndoesKey(target)}
  {
    var schema, ops := Schema({}, {}, {}), [Assert(back), Assert(UndoesKey(target))];
    assert Keys([now]) == {now.key} && Receipts([now]) == {};
    assert ops[..0] == [] && ops[..2] == ops;
    ApplyAllSnoc(schema, {}, {now.key}, ops, 0);
    assert ApplyAll(schema, {}, {now.key}, ops[..1]) == {back};
    ApplyAllSnoc(schema, {}, {now.key}, ops, 1);
    assert ApplyAll(schema, {}, {now.key}, ops[..2]) == {back, UndoesKey(target)};
    assert !RefusesAt(schema, [now], ops, 0) && !RefusesAt(schema, [now], ops, 1);
    PlanSucceedsExactly(schema, [now], ops);
    PlanRefines(schema, [now], ops);
  }

  /** A committed undo records what it undid. */
  lemma UndoRecorded(schema: Schema, db: Db, target: int, undo: Request, delta: Delta)
    requires IsUndo(db.table, target, undo) && Committing(schema, db, undo, delta)
    ensures Triple(TxOf(db, undo, delta), ATTR_UNDOES, Value(TAG_REF, target)) in Keys(LiveOf(Committed(schema, db, undo, delta).table))
  {
    hide Committing, Committed, Sound, Resolved, Plan, LiveOf, UndoOps;
    var key, tx := Triple(0, ATTR_UNDOES, Value(TAG_REF, target)), TxOf(db, undo, delta);
    CommitMeans(schema, db, undo, delta);
    assert undo.ops[..|undo.ops| - 1] == UndoOps(db.table, target);
    assert key in Effects.Wanted(schema, db, undo.ops);
    NothingAboutZero(schema, db, undo, delta);
    KeptExactly(db.next, undo.claims, MentionedBy(PlannedList(delta.assertions)));
    assert Prepare(db, delta, undo.claims).kept == [];
    assert Final(db.next, [], key) == Triple(tx, ATTR_UNDOES, Value(TAG_REF, target));
  }

  lemma NothingAboutZero(schema: Schema, db: Db, req: Request, delta: Delta)
    requires Committing(schema, db, req, delta)
    ensures forall k :: k in Keys(LiveOf(db.table)) ==> k.e != 0
  {
    CommittingSound(schema, db, req, delta);
    forall f | f in LiveOf(db.table) ensures f.key.e != 0 {
      SoundRow(db, f);
      assert f.key.e in Mentions(f.key);
      SoundIds(db);
    }
  }
}
