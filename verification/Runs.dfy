/** Runs of the store: sequences of atomic writer steps from a sound store, and what holds in
    every state they reach, whatever clients interleave. */
module Runs {
  import opened Facts
  import opened Planner
  import opened Localization
  import opened Identities
  import opened History
  import opened Store
  import opened Soundness

  datatype Step = Write(req: Request) | Erasure(ex: Excision)

  function Next(schema: Schema, db: Db, step: Step): (Db, Reply) {
    match step
    case Write(req) => Transact(schema, db, req)
    case Erasure(ex) => Excise(db, ex)
  }

  ghost predicate Admissible(db: Db, step: Step) {
    step.Write? ==> Resolved(db, step.req)
  }

  ghost predicate StepAt(schema: Schema, dbs: seq<Db>, steps: seq<Step>, i: nat)
    requires i < |steps| && |dbs| == |steps| + 1
  {
    Admissible(dbs[i], steps[i]) && dbs[i + 1] == Next(schema, dbs[i], steps[i]).0
  }

  /** `dbs` are the states of a run that takes `steps`. */
  ghost predicate IsRun(schema: Schema, dbs: seq<Db>, steps: seq<Step>) {
    && |dbs| == |steps| + 1
    && Sound(dbs[0])
    && forall i :: 0 <= i < |steps| ==> StepAt(schema, dbs, steps, i)
  }

  /** The delta a request plans; empty when planning fails. */
  function DeltaOf(schema: Schema, db: Db, req: Request): Delta {
    match Plan(schema, LiveOf(db.table), req.ops)
    case Ok(delta) => delta
    case Err(_) => Delta([], [])
  }

  ghost predicate Commits(schema: Schema, db: Db, req: Request, db': Db, reply: Reply) {
    var delta := DeltaOf(schema, db, req);
    && Committing(schema, db, req, delta)
    && db' == Committed(schema, db, req, delta)
    && reply == Applied(TxOf(db, req, delta), Basis(db.events))
  }

  ghost predicate Erases(db: Db, ex: Excision, db': Db, reply: Reply) {
    Excising(db, ex) && db' == Erase(db, ex) && reply == Applied(db.next, Basis(db.events))
  }

  /** What one step does: nothing, a commit, or an erasure. */
  lemma StepCases(schema: Schema, db: Db, step: Step)
    requires Sound(db) && Admissible(db, step)
    ensures var (db', reply) := Next(schema, db, step);
      || (db' == db && !reply.Applied?)
      || (step.Write? && Commits(schema, db, step.req, db', reply))
      || (step.Erasure? && Erases(db, step.ex, db', reply))
  {
    hide Sound, Resolved, Commit, Erase, Plan, SelectorsDistinct, NewIdentities, Kept, KeptClaims;
  }

  lemma StepSound(schema: Schema, db: Db, step: Step)
    requires Sound(db) && Admissible(db, step)
    ensures Sound(Next(schema, db, step).0)
  {
    StepCases(schema, db, step);
    var (db', reply) := Next(schema, db, step);
    if reply.Applied? && step.Write? {
      CommitSound(schema, db, step.req, DeltaOf(schema, db, step.req));
    } else if reply.Applied? {
      EraseSound(db, step.ex);
    }
  }

  /** Every state of every run is sound: row ids, live index, timeline, a registry without gaps,
      and immutable transaction receipts. */
  lemma {:induction false} RunSound(schema: Schema, dbs: seq<Db>, steps: seq<Step>, i: nat)
    requires IsRun(schema, dbs, steps) && i < |dbs|
    ensures Sound(dbs[i])
  {
    hide Sound, Admissible, Next;
    if i > 0 {
      RunSound(schema, dbs, steps, i - 1);
      assert StepAt(schema, dbs, steps, i - 1);
      StepSound(schema, dbs[i - 1], steps[i - 1]);
    }
  }

  lemma RunLength(schema: Schema, dbs: seq<Db>, steps: seq<Step>)
    requires IsRun(schema, dbs, steps)
    ensures |dbs| == |steps| + 1
  {
  }

  /** Step i of a run starts from a sound store. */
  lemma RunStep(schema: Schema, dbs: seq<Db>, steps: seq<Step>, i: nat)
    requires IsRun(schema, dbs, steps) && i < |steps|
    ensures Sound(dbs[i]) && Admissible(dbs[i], steps[i]) && dbs[i + 1] == Next(schema, dbs[i], steps[i]).0
  {
    RunSound(schema, dbs, steps, i);
    assert StepAt(schema, dbs, steps, i);
  }

  // ----- ids over runs -----

  /** The commit took the ids from `db.next` up to `tx`, registered exactly those as created by
      it, and left every older identity as it was. */
  ghost predicate TakesIds(db: Db, db': Db, tx: int) {
    && tx >= db.next && db'.next == tx + 1
    && (forall id :: id in db.ids ==> id in db'.ids && db'.ids[id] == db.ids[id])
    && (forall id :: id in db'.ids && id !in db.ids <==> db.next <= id <= tx)
    && (forall id :: db.next <= id <= tx ==> db'.ids[id].created == tx)
  }

  lemma IdsAdded(db: Db, db': Db, claims: seq<Claim>, event: Uuid)
    requires (forall id :: id in db.ids ==> id < db.next)
    requires db'.ids == db.ids + NewIdentities(db.next, claims, event) && db'.next == db.next + |claims| + 1
    ensures TakesIds(db, db', db.next + |claims|)
  {
  }

  /** Ids over runs: a step that commits fills the gap between the previous transaction and its
      own with the identities it creates; any other step, in particular a no-op, takes no id. */
  lemma StepIds(schema: Schema, db: Db, step: Step)
    requires Sound(db) && Admissible(db, step)
    ensures var (db', reply) := Next(schema, db, step);
      if reply.Applied? then TakesIds(db, db', reply.tx) && reply.basis == db.next - 1 else db' == db
  {
    hide Transact, Excise, Plan, Resolved, NewKeys, Install, CreatedBy, ToTuples, AssertedBy, RetractedBy, TextRows, Hashes, Garbage, Kept, KeptClaims, RedactedTxs, Redact, Remaining;
    StepCases(schema, db, step);
    var (db', reply) := Next(schema, db, step);
    if reply.Applied? && step.Write? {
      var delta := DeltaOf(schema, db, step.req);
      KeptExactly(db.next, step.req.claims, MentionedBy(PlannedList(delta.assertions)));
      IdsAdded(db, db', Prepare(db, delta, step.req.claims).claims, step.req.uuid);
    } else if reply.Applied? {
      OneIdentity(db.next, step.ex.uuid);
      IdsAdded(db, db', [], step.ex.uuid);
    }
  }
}
