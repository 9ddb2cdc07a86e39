/** Cardinality and uniqueness over runs: under a fixed schema, in every reachable store and at
    every past basis, a cardinality-one attribute shows at most one value per entity, and a
    unique value has at most one owner unless some plan reclaimed it. */
module Constraints {
  import opened Facts
  import opened Planner
  import opened Localization
  import opened Identities
  import opened History
  import opened Replay
  import opened Store
  import opened Soundness
  import opened Runs

  /** The attributes a schema speaks about exist; only application attributes are unique. */
  ghost predicate SchemaFits(schema: Schema, next: int) {
    && (forall a :: a in schema.many ==> a < next)
    && (forall a :: a in schema.unique ==> GENESIS_TX < a < next)
  }

  ghost predicate OneValueAlways(schema: Schema, table: seq<Fact>) {
    forall basis :: OneValue(schema, Keys(View(table, basis)))
  }

  ghost predicate OneOwnerAlways(schema: Schema, table: seq<Fact>) {
    forall basis :: OneOwner(schema, Keys(View(table, basis)))
  }

  // ----- the past only loses facts -----

  lemma ViewRow(table: seq<Fact>, basis: int, k: Triple)
    ensures k in Keys(View(table, basis)) <==>
      exists f :: f in table && f.key == k && f.tx <= basis && (f.rx.Some? ==> f.rx.value > basis)
  {
    if k in Keys(View(table, basis)) {
      var g :| g in View(table, basis) && g.key == k;
      AsOfRows(table, basis, g);
    }
    if exists f :: f in table && f.key == k && f.tx <= basis && (f.rx.Some? ==> f.rx.value > basis) {
      var f :| f in table && f.key == k && f.tx <= basis && (f.rx.Some? ==> f.rx.value > basis);
      var g := Shown(f, basis);
      AsOfRows(table, basis, g);
      assert g in View(table, basis);
    }
  }

  lemma PastShrinks(schema: Schema, table: seq<Fact>, next: nat, gone: set<Fact>, keys: seq<Triple>, tx: int, basis: int)
    requires basis < tx && forall f :: f in gone ==> f.rx.None?
    ensures Keys(View(Install(schema, table, next, gone, keys, tx), basis)) <= Keys(View(table, basis))
  {
    var after := Install(schema, table, next, gone, keys, tx);
    forall k | k in Keys(View(after, basis)) ensures k in Keys(View(table, basis)) {
      ViewRow(after, basis, k);
      var f :| f in after && f.key == k && f.tx <= basis && (f.rx.Some? ==> f.rx.value > basis);
      RetiredRows(schema, table, gone, tx, f);
      ViewRow(table, basis, k);
    }
  }

  lemma ErasureShrinks(table: seq<Fact>, entity: int, next: nat, keys: seq<Triple>, tx: int, basis: int)
    requires basis < tx
    ensures Keys(View(Remaining(table, entity) + Fresh(next, keys, tx), basis)) <= Keys(View(table, basis))
  {
    var after := Remaining(table, entity) + Fresh(next, keys, tx);
    forall k | k in Keys(View(after, basis)) ensures k in Keys(View(table, basis)) {
      ViewRow(after, basis, k);
      ViewRow(table, basis, k);
    }
  }

  // ----- the present after a commit -----

  /** Compaction keeps slots and rivals apart. */
  lemma FinalApart(schema: Schema, first: int, claims: seq<Claim>, mentioned: set<int>, k: Triple, l: Triple)
    requires first > GENESIS_TX && SchemaFits(schema, first)
    requires var kept := Kept(first, claims, mentioned); Settled(first, kept, k) && Settled(first, kept, l)
    ensures var kept := Kept(first, claims, mentioned); var k', l' := Final(first, kept, k), Final(first, kept, l);
      && (SameSlot(k', l') ==> SameSlot(k, l))
      && (Rivals(k', l') ==> Rivals(k, l))
      && (k'.a in schema.many <==> k.a in schema.many)
      && (k'.a in schema.unique <==> k.a in schema.unique)
  {
    hide Kept, KeptClaims, Position;
    var kept := Kept(first, claims, mentioned);
    KeptExactly(first, claims, mentioned);
    FinalShape(first, claims, mentioned, k);
    FinalShape(first, claims, mentioned, l);
    assert k.e in Mentions(k) && k.a in Mentions(k) && l.e in Mentions(l) && l.a in Mentions(l);
    assert k.v.tag == TAG_REF ==> k.v.cell in Mentions(k);
    assert l.v.tag == TAG_REF ==> l.v.cell in Mentions(l);
    RenamesApart(first, claims, mentioned, k.e, l.e);
    RenamesApart(first, claims, mentioned, k.a, l.a);
    if k.v.tag == TAG_REF && l.v.tag == TAG_REF {
      RenamesApart(first, claims, mentioned, k.v.cell, l.v.cell);
    }
    hide Settled, Rename;
    FinalInSchema(schema, first, claims, mentioned, k);
  }

  lemma FinalInSchema(schema: Schema, first: int, claims: seq<Claim>, mentioned: set<int>, k: Triple)
    requires SchemaFits(schema, first) && Settled(first, Kept(first, claims, mentioned), k)
    ensures var k' := Final(first, Kept(first, claims, mentioned), k);
      && (k'.a in schema.many <==> k.a in schema.many)
      && (k'.a in schema.unique <==> k.a in schema.unique)
  {
    RenameExactly(first, claims, mentioned);
    KeptExactly(first, claims, mentioned);
    assert k.a in Mentions(k);
  }

  lemma RenamesApart(first: int, claims: seq<Claim>, mentioned: set<int>, id: int, id': int)
    requires var kept := Kept(first, claims, mentioned); Spoken(first, kept, id) && Spoken(first, kept, id')
    ensures var kept := Kept(first, claims, mentioned); Rename(first, kept, id) == Rename(first, kept, id') ==> id == id'
  {
    var kept := Kept(first, claims, mentioned);
    if Rename(first, kept, id) == Rename(first, kept, id') {
      RenameInjective(first, claims, mentioned, id, id');
    }
  }

  /** A key in the compacted outcome of a plan comes from a key of the outcome. */
  ghost predicate FromOutcome(db: Db, req: Request, delta: Delta, k: Triple, k': Triple) {
    var kept := Prepare(db, delta, req.claims).kept;
    k in Outcome(LiveOf(db.table), delta) && Settled(db.next, kept, k) && k' == Final(db.next, kept, k)
  }

  predicate OwnMeta(tx: int, k: Triple) {
    k.e == tx && ReservedMeta(k.a)
  }

  lemma OldKeySettled(db: Db, req: Request, delta: Delta, f: Fact)
    requires Sound(db) && f in db.table && f.rx.None? && f !in Gone(delta) && Net(LiveOf(db.table), delta)
    ensures FromOutcome(db, req, delta, f.key, f.key)
  {
    var rows, kept := LiveOf(db.table), Prepare(db, delta, req.claims).kept;
    assert RowOk(db, f) && f in rows;
    GoneExactly(rows, delta, f);
    KeptExactly(db.next, req.claims, MentionedBy(PlannedList(delta.assertions)));
    RenameOld(db.next, kept, f.key);
    assert f.key.e in Mentions(f.key) && f.key.a in Mentions(f.key);
  }

  /** Every live fact after a commit is metadata of the commit or comes from the outcome. */
  lemma LiveKeyOrigin(schema: Schema, db: Db, req: Request, delta: Delta, k': Triple) returns (k: Triple)
    requires Committing(schema, db, req, delta) && k' in Keys(LiveOf(Committed(schema, db, req, delta).table))
    ensures OwnMeta(TxOf(db, req, delta), k') || FromOutcome(db, req, delta, k, k')
  {
    var rows, keys := LiveOf(db.table), KeysOf(db, req, delta);
    PlanRefines(schema, rows, req.ops);
    CommitLive(schema, db, req, delta);
    var added := Fresh(db.nextRow, keys, TxOf(db, req, delta));
    var f :| f in LiveOf(Committed(schema, db, req, delta).table) && f.key == k';
    if f in added {
      var i :| 0 <= i < |added| && added[i] == f;
      k := NewKeyOrigin(schema, db, req, delta, i);
    } else {
      k := k';
      OldKeySettled(db, req, delta, f);
    }
  }

  lemma NewKeyOrigin(schema: Schema, db: Db, req: Request, delta: Delta, i: nat) returns (k: Triple)
    requires Committing(schema, db, req, delta) && i < |KeysOf(db, req, delta)|
    ensures var k' := KeysOf(db, req, delta)[i];
      OwnMeta(TxOf(db, req, delta), k') || FromOutcome(db, req, delta, k, k')
  {
    hide Sound, Resolved, Plan, NewKeys, Kept, KeptClaims, SelectorsDistinct;
    NewKeysFrom(db.next, TxOf(db, req, delta), req.at, req.meta, Prepare(db, delta, req.claims));
    if i <= |req.meta| {
      MetaKeyAddable(db, req, delta, i);
      k := KeysOf(db, req, delta)[i];
    } else {
      var n := i - 1 - |req.meta|;
      assert i == 1 + |req.meta| + n;
      var p := delta.assertions[n];
      k := p.key;
      AssertionsSettled(schema, db, req, delta);
      assert p in delta.assertions;
    }
  }

  lemma OldEntities(db: Db)
    requires Sound(db)
    ensures forall f :: f in db.table ==> f.key.e < db.next
  {
    forall f | f in db.table ensures f.key.e < db.next {
      assert RowOk(db, f) && f.key.e in Mentions(f.key);
    }
  }

  lemma OwnMetaIndex(schema: Schema, db: Db, req: Request, delta: Delta, k: Triple) returns (i: nat)
    requires Committing(schema, db, req, delta) && OwnMeta(TxOf(db, req, delta), k)
    requires k in Keys(LiveOf(Committed(schema, db, req, delta).table))
    ensures i <= |req.meta| && i < |KeysOf(db, req, delta)| && KeysOf(db, req, delta)[i] == k
  {
    var keys, tx := KeysOf(db, req, delta), TxOf(db, req, delta);
    CommitLive(schema, db, req, delta);
    var added := Fresh(db.nextRow, keys, tx);
    var f :| f in LiveOf(Committed(schema, db, req, delta).table) && f.key == k;
    OldEntities(db);
    i :| 0 <= i < |added| && added[i] == f;
    NewKeyAddable(schema, db, req, delta, i);
  }

  lemma CommitOneValue(schema: Schema, db: Db, req: Request, delta: Delta)
    requires Committing(schema, db, req, delta) && SchemaFits(schema, db.next)
    requires OneValue(schema, Keys(LiveOf(db.table)))
    ensures OneValue(schema, Keys(LiveOf(Committed(schema, db, req, delta).table)))
  {
    PlanOneValue(schema, LiveOf(db.table), req.ops);
    var live := Keys(LiveOf(Committed(schema, db, req, delta).table));
    forall k', l' | k' in live && l' in live && SameSlot(k', l') && k'.a !in schema.many ensures k' == l' {
      OneValuePair(schema, db, req, delta, k', l');
    }
  }

  lemma OneValuePair(schema: Schema, db: Db, req: Request, delta: Delta, k': Triple, l': Triple)
    requires Committing(schema, db, req, delta) && SchemaFits(schema, db.next)
    requires OneValue(schema, Outcome(LiveOf(db.table), delta))
    requires k' in Keys(LiveOf(Committed(schema, db, req, delta).table))
    requires l' in Keys(LiveOf(Committed(schema, db, req, delta).table))
    requires SameSlot(k', l') && k'.a !in schema.many
    ensures k' == l'
  {
    var tx, mentioned := TxOf(db, req, delta), MentionedBy(PlannedList(delta.assertions));
    TxsBounded(db);
    var k := LiveKeyOrigin(schema, db, req, delta, k');
    var l := LiveKeyOrigin(schema, db, req, delta, l');
    if OwnMeta(tx, k') {
      var i := OwnMetaIndex(schema, db, req, delta, k');
      var j := OwnMetaIndex(schema, db, req, delta, l');
      if i < j { OwnKeysDistinct(db, req, delta, i, j); }
      if j < i { OwnKeysDistinct(db, req, delta, j, i); }
    } else {
      FinalApart(schema, db.next, req.claims, mentioned, k, l);
    }
  }

  lemma CommitOneOwner(schema: Schema, db: Db, req: Request, delta: Delta)
    requires Committing(schema, db, req, delta) && SchemaFits(schema, db.next)
    requires OneOwner(schema, Outcome(LiveOf(db.table), delta))
    ensures OneOwner(schema, Keys(LiveOf(Committed(schema, db, req, delta).table)))
  {
    TxsBounded(db);
    var live := Keys(LiveOf(Committed(schema, db, req, delta).table));
    forall k', l' | k' in live && l' in live && Rivals(k', l') ensures k'.a !in schema.unique {
      var k := LiveKeyOrigin(schema, db, req, delta, k');
      var l := LiveKeyOrigin(schema, db, req, delta, l');
      if !OwnMeta(TxOf(db, req, delta), k') && !OwnMeta(TxOf(db, req, delta), l') {
        FinalApart(schema, db.next, req.claims, MentionedBy(PlannedList(delta.assertions)), k, l);
      }
    }
  }

  // ----- one step -----

  lemma RowTimes(db: Db, basis: int)
    requires Sound(db) && basis >= db.next - 1
    ensures View(db.table, basis) == LiveOf(db.table)
  {
    TxsBounded(db);
    forall f | f in db.table ensures f.tx <= basis && (f.rx.Some? ==> f.rx.value <= basis) {
      assert RowOk(db, f);
    }
    ViewNow(db.table, basis);
  }

  /** How the views change in one step: earlier views only lose facts, later ones show the new
      live facts. */
  lemma StepViews(schema: Schema, db: Db, step: Step, basis: int)
    requires Sound(db) && Admissible(db, step)
    ensures var db' := Next(schema, db, step).0;
      || View(db'.table, basis) == LiveOf(db'.table)
      || Keys(View(db'.table, basis)) <= Keys(View(db.table, basis))
  {
    var (db', reply) := Next(schema, db, step);
    StepCases(schema, db, step);
    StepSound(schema, db, step);
    if basis >= db'.next - 1 {
      RowTimes(db', basis);
    } else if reply.Applied? && step.Write? {
      var delta := DeltaOf(schema, db, step.req);
      CommitParts(schema, db, step.req, delta);
      RetractionsSpareReceipts(schema, db, step.req, delta);
      PastShrinks(schema, db.table, db.nextRow, Gone(delta), KeysOf(db, step.req, delta), TxOf(db, step.req, delta), basis);
    } else if reply.Applied? {
      EraseParts(db, step.ex);
      ErasureShrinks(db.table, step.ex.entity, db.nextRow, MarkerKeys(db, step.ex), db.next, basis);
    }
  }

  lemma EraseLiveKeys(db: Db, ex: Excision, k: Triple)
    requires k in Keys(LiveOf(Erase(db, ex).table))
    ensures k in Keys(LiveOf(db.table)) || k in MarkerKeys(db, ex)
  {
    var f :| f in LiveOf(Erase(db, ex).table) && f.key == k;
    EraseRow(db, ex, f);
    assert f in db.table ==> f in LiveOf(db.table);
  }

  lemma EraseOneValue(schema: Schema, db: Db, ex: Excision)
    requires OneValue(schema, Keys(LiveOf(db.table))) && forall k :: k in Keys(LiveOf(db.table)) ==> k.e < db.next
    ensures OneValue(schema, Keys(LiveOf(Erase(db, ex).table)))
  {
    var live := Keys(LiveOf(Erase(db, ex).table));
    forall k, l | k in live && l in live && SameSlot(k, l) && k.a !in schema.many ensures k == l {
      EraseLiveKeys(db, ex, k);
      EraseLiveKeys(db, ex, l);
    }
  }

  lemma EraseOneOwner(schema: Schema, db: Db, ex: Excision)
    requires OneOwner(schema, Keys(LiveOf(db.table))) && SchemaFits(schema, db.next)
    ensures OneOwner(schema, Keys(LiveOf(Erase(db, ex).table)))
  {
    hide Erase, LiveOf, Keys;
    var live := Keys(LiveOf(Erase(db, ex).table));
    forall k, l | k in live && l in live && Rivals(k, l) ensures k.a !in schema.unique {
      EraseLiveKeys(db, ex, k);
      EraseLiveKeys(db, ex, l);
    }
  }

  lemma StepOneValueNow(schema: Schema, db: Db, step: Step)
    requires Sound(db) && Admissible(db, step) && SchemaFits(schema, db.next) && OneValue(schema, Keys(LiveOf(db.table)))
    ensures OneValue(schema, Keys(LiveOf(Next(schema, db, step).0.table)))
  {
    StepCases(schema, db, step);
    var (db', reply) := Next(schema, db, step);
    if reply.Applied? && step.Write? {
      CommitOneValue(schema, db, step.req, DeltaOf(schema, db, step.req));
    } else if reply.Applied? {
      OldEntities(db);
      EraseOneValue(schema, db, step.ex);
    }
  }

  /** The request does not take back a unique value after giving it away. */
  ghost predicate NoReclaim(schema: Schema, db: Db, step: Step) {
    step.Write? ==> forall i :: 0 <= i < |step.req.ops| ==> !Reclaims(schema, LiveOf(db.table), step.req.ops, i)
  }

  lemma StepOneOwnerNow(schema: Schema, db: Db, step: Step)
    requires Sound(db) && Admissible(db, step) && SchemaFits(schema, db.next)
    requires OneOwner(schema, Keys(LiveOf(db.table))) && NoReclaim(schema, db, step)
    ensures OneOwner(schema, Keys(LiveOf(Next(schema, db, step).0.table)))
  {
    StepCases(schema, db, step);
    var (db', reply) := Next(schema, db, step);
    if reply.Applied? && step.Write? {
      PlanOneOwner(schema, LiveOf(db.table), step.req.ops);
      CommitOneOwner(schema, db, step.req, DeltaOf(schema, db, step.req));
    } else if reply.Applied? {
      EraseOneOwner(schema, db, step.ex);
    }
  }

  lemma StepOneValue(schema: Schema, db: Db, step: Step)
    requires Sound(db) && Admissible(db, step) && SchemaFits(schema, db.next) && OneValueAlways(schema, db.table)
    ensures OneValueAlways(schema, Next(schema, db, step).0.table)
  {
    RowTimes(db, db.next - 1);
    StepOneValueNow(schema, db, step);
    forall basis ensures OneValue(schema, Keys(View(Next(schema, db, step).0.table, basis))) {
      StepViews(schema, db, step, basis);
    }
  }

  lemma StepOneOwner(schema: Schema, db: Db, step: Step)
    requires Sound(db) && Admissible(db, step) && SchemaFits(schema, db.next) && OneOwnerAlways(schema, db.table)
    requires NoReclaim(schema, db, step)
    ensures OneOwnerAlways(schema, Next(schema, db, step).0.table)
  {
    RowTimes(db, db.next - 1);
    StepOneOwnerNow(schema, db, step);
    forall basis ensures OneOwner(schema, Keys(View(Next(schema, db, step).0.table, basis))) {
      StepViews(schema, db, step, basis);
    }
  }

  // ----- runs -----

  lemma StepFits(schema: Schema, db: Db, step: Step)
    requires Sound(db) && Admissible(db, step) && SchemaFits(schema, db.next)
    ensures SchemaFits(schema, Next(schema, db, step).0.next)
  {
    StepIds(schema, db, step);
  }

  ghost predicate Valued(schema: Schema, db: Db) {
    SchemaFits(schema, db.next) && OneValueAlways(schema, db.table)
  }

  ghost predicate Owned(schema: Schema, db: Db) {
    SchemaFits(schema, db.next) && OneOwnerAlways(schema, db.table)
  }

  /** In every state of every run, and at every past basis, a cardinality-one attribute shows at
      most one value per entity. */
  lemma {:induction false} RunOneValue(schema: Schema, dbs: seq<Db>, steps: seq<Step>, i: nat)
    requires IsRun(schema, dbs, steps) && i < |dbs| && Valued(schema, dbs[0])
    ensures Valued(schema, dbs[i])
  {
    hide *;
    RunLength(schema, dbs, steps);
    if i > 0 {
      RunOneValue(schema, dbs, steps, i - 1);
      RunStep(schema, dbs, steps, i - 1);
      StepValued(schema, dbs[i - 1], steps[i - 1]);
    }
  }

  lemma StepValued(schema: Schema, db: Db, step: Step)
    requires Sound(db) && Admissible(db, step) && Valued(schema, db)
    ensures Valued(schema, Next(schema, db, step).0)
  {
    StepOneValue(schema, db, step);
    StepFits(schema, db, step);
  }

  /** In every state of every run whose plans reclaim nothing, and at every past basis, a unique
      value has at most one owner. */
  lemma {:induction false} RunOneOwner(schema: Schema, dbs: seq<Db>, steps: seq<Step>, i: nat)
    requires IsRun(schema, dbs, steps) && i < |dbs| && Owned(schema, dbs[0])
    requires forall j :: 0 <= j < |steps| ==> NoReclaim(schema, dbs[j], steps[j])
    ensures Owned(schema, dbs[i])
  {
    hide *;
    RunLength(schema, dbs, steps);
    if i > 0 {
      RunOneOwner(schema, dbs, steps, i - 1);
      RunStep(schema, dbs, steps, i - 1);
      StepOwned(schema, dbs[i - 1], steps[i - 1]);
    }
  }

  lemma StepOwned(schema: Schema, db: Db, step: Step)
    requires Sound(db) && Admissible(db, step) && Owned(schema, db) && NoReclaim(schema, db, step)
    ensures Owned(schema, Next(schema, db, step).0)
  {
    StepOneOwner(schema, db, step);
    StepFits(schema, db, step);
  }
}
