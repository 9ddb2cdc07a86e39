/** Planning as the writer does it: the facts a request touches are loaded, and the plan is made
    over those.  Over runs this is the plan over all live facts. */
module Planning {
  import opened Facts
  import opened Planner
  import DiffPlan
  import opened Localization
  import opened Identities
  import opened History
  import opened Store
  import opened Soundness
  import opened Runs
  import opened Constraints

  /** No transaction entity owns a live unique reference. */
  ghost predicate NoOwnReferences(schema: Schema, db: Db) {
    && SchemaFits(schema, db.next)
    && forall k :: k in Keys(LiveOf(db.table)) && k.e in Txs(db.events) && k.a in schema.unique ==> k.v.tag != TAG_REF
  }

  /** The request asserts no unique reference about its own transaction. */
  ghost predicate Harmless(schema: Schema, step: Step) {
    step.Write? ==> forall k :: Assert(k) in step.req.ops && k.e == 0 && k.a in schema.unique ==> k.v.tag != TAG_REF
  }

  lemma NoHazard(schema: Schema, db: Db)
    requires Sound(db) && NoOwnReferences(schema, db)
    ensures !Hazard(schema, LiveOf(db.table)) && Table(db.table) && ReceiptsLive(db.table)
  {
    ReceiptsAreTxs(db);
    assert forall f :: f in LiveOf(db.table) ==> f.key in Keys(LiveOf(db.table));
  }

  /** Loads the touched facts and plans over them; the result is that of planning over all. */
  method PlanRequest(schema: Schema, db: Db, ops: seq<Op>) returns (r: Result<Delta>)
    requires Sound(db) && NoOwnReferences(schema, db) && UserPlan(LiveOf(db.table), ops)
    ensures r == Plan(schema, LiveOf(db.table), ops)
  {
    hide Sound, NoOwnReferences, Plan, WorkingFacts;
    NoHazard(schema, db);
    var rows := WorkingFactsForPlan(schema, db.table, ops);
    WorkingFactsLive(schema, db.table, ops);
    r := DiffPlan.DiffPlan(schema, rows, ops);
    LocalPlanIsGlobalPlan(schema, db.table, ops);
  }

  /** A live key about the new transaction comes from its metadata or from the request. */
  lemma OwnKeyHarmless(schema: Schema, db: Db, req: Request, delta: Delta, k': Triple)
    requires Committing(schema, db, req, delta) && SchemaFits(schema, db.next) && Harmless(schema, Write(req))
    requires k' in Keys(LiveOf(Committed(schema, db, req, delta).table)) && k'.e == TxOf(db, req, delta) && k'.a in schema.unique
    ensures k'.v.tag != TAG_REF
  {
    hide Committing, Committed, Sound, Settled;
    CommittingSound(schema, db, req, delta);
    IdsBelow(db, req, delta);
    OldEntities(db);
    CommitLive(schema, db, req, delta);
    var keys, tx := KeysOf(db, req, delta), TxOf(db, req, delta);
    var f :| f in LiveOf(Committed(schema, db, req, delta).table) && f.key == k';
    if f in Fresh(db.nextRow, keys, tx) {
      var i :| 0 <= i < |keys| && Fresh(db.nextRow, keys, tx)[i] == f;
      NewOwnKey(schema, db, req, delta, i);
    } else {
      SoundRow(db, f);
    }
  }

  lemma NewOwnKey(schema: Schema, db: Db, req: Request, delta: Delta, i: nat)
    requires Committing(schema, db, req, delta) && SchemaFits(schema, db.next) && Harmless(schema, Write(req)) && i < |KeysOf(db, req, delta)|
    ensures var k' := KeysOf(db, req, delta)[i]; k'.e == TxOf(db, req, delta) && k'.a in schema.unique ==> k'.v.tag != TAG_REF
  {
    hide Plan, SelectorsDistinct, Sound;
    NewKeysFrom(db.next, TxOf(db, req, delta), req.at, req.meta, Prepare(db, delta, req.claims));
    if i <= |req.meta| {
      MetaKeyAddable(db, req, delta, i);
    } else {
      var n := i - 1 - |req.meta|;
      assert i == 1 + |req.meta| + n;
      var p := delta.assertions[n];
      assert p in delta.assertions;
      AssertionsSettled(schema, db, req, delta);
      TxsBounded(db) by { CommittingSound(schema, db, req, delta); SoundTimeline(db); }
      FinalShape(db.next, req.claims, MentionedBy(PlannedList(delta.assertions)), p.key);
      RenameExactly(db.next, req.claims, MentionedBy(PlannedList(delta.assertions)));
    }
  }

  lemma SoundTimeline(db: Db)
    requires Sound(db)
    ensures Timeline(db)
  {
  }

  lemma CommitHarmless(schema: Schema, db: Db, req: Request, delta: Delta)
    requires Committing(schema, db, req, delta) && NoOwnReferences(schema, db) && Harmless(schema, Write(req))
    ensures NoOwnReferences(schema, Committed(schema, db, req, delta))
  {
    hide Committing, Committed, Sound, Harmless, KeysOf;
    var db', tx := Committed(schema, db, req, delta), TxOf(db, req, delta);
    CommitParts(schema, db, req, delta);
    CommitTimeline(schema, db, req, delta);
    CommittingSound(schema, db, req, delta);
    IdsBelow(db, req, delta);
    forall k | k in Keys(LiveOf(db'.table)) && k.e in Txs(db'.events) && k.a in schema.unique ensures k.v.tag != TAG_REF {
      if k.e == tx {
        OwnKeyHarmless(schema, db, req, delta, k);
      } else {
        OldOwnKey(schema, db, req, delta, k);
      }
    }
  }

  /** A commit adds nothing about older transactions. */
  lemma OldOwnKey(schema: Schema, db: Db, req: Request, delta: Delta, k: Triple)
    requires Committing(schema, db, req, delta) && k in Keys(LiveOf(Committed(schema, db, req, delta).table)) && k.e in Txs(db.events)
    ensures k in Keys(LiveOf(db.table))
  {
    hide Committing, Committed, Sound, KeysOf;
    CommitLive(schema, db, req, delta);
    CommittingSound(schema, db, req, delta);
    IdsBelow(db, req, delta);
    SoundTimeline(db);
    TxsBounded(db);
    var keys, tx := KeysOf(db, req, delta), TxOf(db, req, delta);
    var f :| f in LiveOf(Committed(schema, db, req, delta).table) && f.key == k;
    if f in Fresh(db.nextRow, keys, tx) {
      var i :| 0 <= i < |keys| && Fresh(db.nextRow, keys, tx)[i] == f;
      NewKeyAddable(schema, db, req, delta, i);
    } else {
      assert f in LiveOf(db.table);
    }
  }

  lemma EraseHarmless(schema: Schema, db: Db, ex: Excision)
    requires Excising(db, ex) && NoOwnReferences(schema, db)
    ensures NoOwnReferences(schema, Erase(db, ex))
  {
    hide Sound, Erase, Registry, SelectorsDistinct;
    var db' := Erase(db, ex);
    EraseParts(db, ex);
    SoundTimeline(db);
    EraseTimeline(db, ex) by { SoundRegistry(db); }
    forall k | k in Keys(LiveOf(db'.table)) && k.e in Txs(db'.events) && k.a in schema.unique ensures k.v.tag != TAG_REF {
      EraseLiveKeys(db, ex, k);
      if k in Keys(LiveOf(db.table)) {
        OldEntities(db);
      }
    }
  }

  lemma SoundRegistry(db: Db)
    requires Sound(db)
    ensures Registry(db)
  {
  }

  lemma StepHarmless(schema: Schema, db: Db, step: Step)
    requires Sound(db) && Admissible(db, step) && NoOwnReferences(schema, db) && Harmless(schema, step)
    ensures NoOwnReferences(schema, Next(schema, db, step).0)
  {
    var (db', reply) := Next(schema, db, step);
    StepCases(schema, db, step);
    hide NoOwnReferences, Sound;
    if reply.Applied? && step.Write? {
      CommitHarmless(schema, db, step.req, DeltaOf(schema, db, step.req));
    } else if reply.Applied? {
      EraseHarmless(schema, db, step.ex);
    }
  }

  /** In every state of a run whose requests assert no unique reference about their own
      transaction, no transaction owns one, and so the localised plan of any request that callers
      may submit is the plan over all live facts. */
  lemma {:induction false} RunPlansLocally(schema: Schema, dbs: seq<Db>, steps: seq<Step>, i: nat, ops: seq<Op>)
    requires IsRun(schema, dbs, steps) && i < |dbs| && NoOwnReferences(schema, dbs[0])
    requires forall j :: 0 <= j < |steps| ==> Harmless(schema, steps[j])
    ensures NoOwnReferences(schema, dbs[i])
    ensures UserPlan(LiveOf(dbs[i].table), ops) ==> LocalAgrees(schema, dbs[i].table, ops)
  {
    hide *;
    RunLength(schema, dbs, steps);
    RunSound(schema, dbs, steps, i);
    if i > 0 {
      RunPlansLocally(schema, dbs, steps, i - 1, ops);
      RunStep(schema, dbs, steps, i - 1);
      StepHarmless(schema, dbs[i - 1], steps[i - 1]);
    }
    NoHazard(schema, dbs[i]);
    if UserPlan(LiveOf(dbs[i].table), ops) {
      LocalPlanIsGlobalPlan(schema, dbs[i].table, ops);
    }
  }
}
