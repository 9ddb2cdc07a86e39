/** The retry and basis protocol over runs: an operation id names at most one event forever, a
    retry answers with the original receipt and changes nothing, a different request under the
    same id conflicts, and a guarded commit happens only on the basis it names. */
module Protocol {
  import opened Facts
  import opened Planner
  import opened History
  import opened Identities
  import opened Store
  import opened Soundness
  import opened Runs

  function OperationOf(step: Step): Option<Operation> {
    match step
    case Write(req) => req.operation
    case Erasure(ex) => ex.operation
  }

  function GuardOf(step: Step): Option<int> {
    match step
    case Write(req) => req.guard
    case Erasure(ex) => ex.guard
  }

  /** The events answer for operation `op` with the receipt (tx, basis). */
  ghost predicate Remembers(events: seq<Event>, op: Operation, tx: int, basis: int) {
    && Receipt(events, op.id).Some?
    && Receipt(events, op.id).value.tx == tx
    && Receipt(events, op.id).value.operation == Some(op)
    && BasisBefore(events, tx) == basis
  }

  ghost predicate SameReceipts(events: seq<Event>, past: seq<Event>) {
    && |events| == |past|
    && forall i :: 0 <= i < |events| ==> events[i].tx == past[i].tx && events[i].operation == past[i].operation
  }

  lemma {:induction false} ReceiptIgnoresPayload(events: seq<Event>, past: seq<Event>, id: string)
    requires SameReceipts(events, past)
    ensures match Receipt(events, id)
      case None => Receipt(past, id).None?
      case Some(ev) => Receipt(past, id).Some? && Receipt(past, id).value.tx == ev.tx && Receipt(past, id).value.operation == ev.operation
  {
    if events != [] {
      ReceiptIgnoresPayload(events[..|events| - 1], past[..|past| - 1], id);
    }
  }

  lemma {:induction false} BasisIgnoresPayload(events: seq<Event>, past: seq<Event>, tx: int)
    requires SameReceipts(events, past)
    ensures BasisBefore(events, tx) == BasisBefore(past, tx)
  {
    if events != [] {
      BasisIgnoresPayload(events[..|events| - 1], past[..|past| - 1], tx);
    }
  }

  /** What an applied step does to the events: it appends its own, and may empty payloads. */
  lemma StepEvents(schema: Schema, db: Db, step: Step)
    requires Sound(db) && Admissible(db, step) && Next(schema, db, step).1.Applied?
    ensures var (db', reply) := Next(schema, db, step);
      && |db'.events| == |db.events| + 1
      && SameReceipts(db.events, db'.events[..|db.events|])
      && db'.events[|db.events|].tx == reply.tx && reply.tx > Basis(db.events)
      && db'.events[|db.events|].operation == OperationOf(step)
      && reply.basis == Basis(db.events)
      && Precheck(db.events, OperationOf(step), GuardOf(step)).None?
  {
    StepCases(schema, db, step);
    if step.Write? {
      CommitParts(schema, db, step.req, DeltaOf(schema, db, step.req));
    } else {
      EraseParts(db, step.ex);
    }
  }

  /** A step under a known operation id is answered from the receipt. */
  lemma KnownOperation(schema: Schema, db: Db, step: Step, op: Operation, tx: int, basis: int)
    requires Remembers(db.events, op, tx, basis) && OperationOf(step).Some? && OperationOf(step).value.id == op.id
    ensures Next(schema, db, step) == (db, if OperationOf(step).value == op then AlreadyApplied(tx, basis) else Failed(Conflict))
  {
  }

  lemma AppendRemembers(past: seq<Event>, ev: Event, op: Operation, tx: int, basis: int)
    requires Remembers(past, op, tx, basis) && tx <= ev.tx
    requires ev.operation.Some? ==> ev.operation.value.id != op.id
    ensures Remembers(past + [ev], op, tx, basis)
  {
    assert (past + [ev])[..|past|] == past;
  }

  lemma ReceiptIn(events: seq<Event>, id: string)
    requires Receipt(events, id).Some?
    ensures Receipt(events, id).value in events
  {
  }

  lemma SoundTimeline(db: Db)
    requires Sound(db)
    ensures Timeline(db)
  {
  }

  lemma StepRemembers(schema: Schema, db: Db, step: Step, op: Operation, tx: int, basis: int)
    requires Sound(db) && Admissible(db, step) && Remembers(db.events, op, tx, basis)
    ensures Remembers(Next(schema, db, step).0.events, op, tx, basis)
  {
    hide Sound, Transact, Excise;
    SoundTimeline(db);
    hide Timeline;
    var (db', reply) := Next(schema, db, step);
    if reply.Applied? {
      StepEvents(schema, db, step);
      var past, ev := db'.events[..|db.events|], db'.events[|db.events|];
      assert db'.events == past + [ev];
      ReceiptIgnoresPayload(db.events, past, op.id);
      BasisIgnoresPayload(db.events, past, tx);
      ReceiptIn(db.events, op.id);
      TxsBounded(db);
      assert tx in Txs(db.events);
      AppendRemembers(past, ev, op, tx, basis);
    } else {
      StepCases(schema, db, step);
    }
  }

  lemma AppliedRemembers(schema: Schema, db: Db, step: Step)
    requires Sound(db) && Admissible(db, step) && Next(schema, db, step).1.Applied? && OperationOf(step).Some?
    ensures var (db', reply) := Next(schema, db, step);
      Remembers(db'.events, OperationOf(step).value, reply.tx, reply.basis)
  {
    var (db', reply) := Next(schema, db, step);
    StepEvents(schema, db, step);
    var past, ev := db'.events[..|db.events|], db'.events[|db.events|];
    assert db'.events == past + [ev] && db'.events[..|past|] == past;
  }

  lemma {:induction false} RunKeepsRemembering(schema: Schema, dbs: seq<Db>, steps: seq<Step>, i: nat, j: nat,
                                               op: Operation, tx: int, basis: int)
    requires IsRun(schema, dbs, steps) && i <= j < |dbs| && Remembers(dbs[i].events, op, tx, basis)
    ensures Remembers(dbs[j].events, op, tx, basis)
  {
    hide *;
    RunLength(schema, dbs, steps);
    if i < j {
      RunKeepsRemembering(schema, dbs, steps, i, j - 1, op, tx, basis);
      RunStep(schema, dbs, steps, j - 1);
      StepRemembers(schema, dbs[j - 1], steps[j - 1], op, tx, basis);
    }
  }

  /** Once an operation is applied, every later state of the run remembers it with its original
      transaction and basis. */
  lemma RunRemembers(schema: Schema, dbs: seq<Db>, steps: seq<Step>, i: nat, j: nat)
    requires IsRun(schema, dbs, steps) && i < j < |dbs|
    requires Next(schema, dbs[i], steps[i]).1.Applied? && OperationOf(steps[i]).Some?
    ensures var reply := Next(schema, dbs[i], steps[i]).1;
      Remembers(dbs[j].events, OperationOf(steps[i]).value, reply.tx, reply.basis)
  {
    hide *;
    RunLength(schema, dbs, steps);
    var reply := Next(schema, dbs[i], steps[i]).1;
    RunStep(schema, dbs, steps, i);
    AppliedRemembers(schema, dbs[i], steps[i]);
    RunKeepsRemembering(schema, dbs, steps, i + 1, j, OperationOf(steps[i]).value, reply.tx, reply.basis);
  }

  /** Retry, over any interleaving: after step i applied an operation, any later step under the
      same operation id changes nothing; the exact request is answered with the original
      transaction and basis, whatever basis it names now, and any other request conflicts. */
  lemma RetryAnswersOnce(schema: Schema, dbs: seq<Db>, steps: seq<Step>, i: nat, j: nat, retry: Step)
    requires IsRun(schema, dbs, steps) && i < j < |dbs|
    requires Next(schema, dbs[i], steps[i]).1.Applied? && OperationOf(steps[i]).Some?
    requires OperationOf(retry).Some? && OperationOf(retry).value.id == OperationOf(steps[i]).value.id
    ensures var reply := Next(schema, dbs[i], steps[i]).1;
      Next(schema, dbs[j], retry) ==
        (dbs[j], if OperationOf(retry) == OperationOf(steps[i]) then AlreadyApplied(reply.tx, reply.basis) else Failed(Conflict))
  {
    RunRemembers(schema, dbs, steps, i, j);
    var reply := Next(schema, dbs[i], steps[i]).1;
    KnownOperation(schema, dbs[j], retry, OperationOf(steps[i]).value, reply.tx, reply.basis);
  }

  /** An operation id is applied by at most one step of a run. */
  lemma OperationAppliesOnce(schema: Schema, dbs: seq<Db>, steps: seq<Step>, i: nat, j: nat)
    requires IsRun(schema, dbs, steps) && i < j < |steps|
    requires Next(schema, dbs[i], steps[i]).1.Applied? && Next(schema, dbs[j], steps[j]).1.Applied?
    requires OperationOf(steps[i]).Some? && OperationOf(steps[j]).Some?
    ensures OperationOf(steps[i]).value.id != OperationOf(steps[j]).value.id
  {
    if OperationOf(steps[i]).value.id == OperationOf(steps[j]).value.id {
      RetryAnswersOnce(schema, dbs, steps, i, j, steps[j]);
    }
  }

  /** A guarded step commits only if no event landed since the basis it names: that basis is the
      store's latest event, and the commit is the very next one. */
  lemma GuardedCommit(schema: Schema, db: Db, step: Step)
    requires Sound(db) && Admissible(db, step) && Next(schema, db, step).1.Applied? && GuardOf(step).Some?
    ensures var (db', reply) := Next(schema, db, step);
      && reply.basis == GuardOf(step).value == Basis(db.events)
      && (forall tx :: tx in Txs(db.events) ==> tx <= GuardOf(step).value)
      && BasisBefore(db'.events, reply.tx) == GuardOf(step).value
  {
    var (db', reply) := Next(schema, db, step);
    StepEvents(schema, db, step);
    TxsBounded(db);
    var past, ev := db'.events[..|db.events|], db'.events[|db.events|];
    assert db'.events == past + [ev] && db'.events[..|past|] == past;
  }

  // ----- the checks every writer makes first -----

  predicate Carries(ev: Event, id: string) {
    ev.operation.Some? && ev.operation.value.id == id
  }

  lemma {:induction false} ReceiptFound(events: seq<Event>, id: string)
    ensures Receipt(events, id).Some? <==> exists ev :: ev in events && Carries(ev, id)
  {
    if events != [] {
      var n := |events| - 1;
      ReceiptFound(events[..n], id);
      if Carries(events[n], id) {
        assert events[n] in events;
      } else if ev :| ev in events && Carries(ev, id) {
        assert ev in events[..n];
      } else {
        assert forall ev :: ev in events[..n] ==> ev in events;
      }
    }
  }

  /** A receipt is the last event under its operation id. */
  lemma {:induction false} ReceiptIs(events: seq<Event>, id: string, i: nat)
    requires i < |events| && Carries(events[i], id) && forall j :: i < j < |events| ==> !Carries(events[j], id)
    ensures Receipt(events, id) == Some(events[i])
  {
    var n := |events| - 1;
    if i < n {
      assert !Carries(events[n], id);
      ReceiptIs(events[..n], id, i);
    }
  }

  /** The basis of an event is the event before it. */
  lemma {:induction false} BasisBeforeExactly(events: seq<Event>, i: nat)
    requires forall j, k :: 0 <= j < k < |events| ==> events[j].tx < events[k].tx
    requires i < |events|
    ensures BasisBefore(events, events[i].tx) == if i == 0 then events[0].tx else events[i - 1].tx
  {
    var n := |events| - 1;
    if i < n {
      BasisBeforeExactly(events[..n], i);
    } else if i > 0 {
      assert events[..n][n - 1].tx < events[n].tx;
    }
  }

  /** A step passes the checks if and only if its operation id is on no event and it names no basis
      or the latest one; a stale basis conflicts. */
  lemma PrecheckExactly(db: Db, operation: Option<Operation>, guard: Option<int>)
    requires Sound(db)
    ensures var known := operation.Some? && exists ev :: ev in db.events && Carries(ev, operation.value.id);
      var current := guard.None? || guard.value == db.events[|db.events| - 1].tx;
      && (Precheck(db.events, operation, guard).None? <==> !known && current)
      && (!known && !current ==> Precheck(db.events, operation, guard) == Some(Failed(Conflict)))
  {
    hide Rows, Registry, ReceiptsKept, Receipt, BasisBefore;
    if operation.Some? { ReceiptFound(db.events, operation.value.id); }
  }

  /** An operation id on an event is answered from that event and the event before it, whatever
      basis the step names; another request under the id conflicts. */
  lemma KnownPrecheck(db: Db, operation: Operation, guard: Option<int>, i: nat)
    requires Sound(db) && i < |db.events| && Carries(db.events[i], operation.id)
    requires forall j :: i < j < |db.events| ==> !Carries(db.events[j], operation.id)
    ensures Precheck(db.events, Some(operation), guard) == Some(
      if db.events[i].operation.value.request != operation.request then Failed(Conflict)
      else AlreadyApplied(db.events[i].tx, db.events[if i == 0 then 0 else i - 1].tx))
  {
    hide Rows, Registry, ReceiptsKept, Receipt, BasisBefore;
    ReceiptIs(db.events, operation.id, i);
    BasisBeforeExactly(db.events, i);
  }

  /** A guard on the latest basis changes nothing: the step is answered as without it. */
  lemma GuardLetsThrough(schema: Schema, db: Db, step: Step)
    requires GuardOf(step) == Some(Basis(db.events))
    ensures Next(schema, db, step) == Next(schema, db, Unguarded(step))
  {
    if step.Write? {
      hide Plan, SelectorsDistinct, Prepare, Commit, Receipt, NewIdentities;
      SameCommit(schema, db, step.req);
    } else {
      hide SelectorsDistinct, Receipt;
    }
  }

  function Unguarded(step: Step): Step {
    match step
    case Write(req) => Write(req.(guard := None))
    case Erasure(ex) => Erasure(ex.(guard := None))
  }

  /** A commit does not depend on the guard. */
  lemma SameCommit(schema: Schema, db: Db, req: Request)
    ensures forall prepared :: Commit(schema, db, req, prepared) == Commit(schema, db, req.(guard := None), prepared)
  {
    hide Install, TextRows, Hashes, Garbage, NewKeys, NewIdentities, TimeKeys, OriginTime, CreatedBy, ToTuples, AssertedBy, RetractedBy;
  }
}
