/** The restore as it runs: a state that is updated line by line.  Each method does what the
    functions of the restore say. */
module Restorer {
  import opened Facts
  import opened Store
  import opened Soundness
  import opened Snapshot
  import opened Localization
  import opened Doctor
  import opened Recovery

  lemma ReserveSnoc(identities: map<Selector, int>, next: int, created: seq<Selector>, i: nat)
    requires i < |created|
    ensures var before := Reserve(identities, next, created[..i]);
      Reserve(identities, next, created[..i + 1]) ==
        if before.None? || created[i] in before.value then None else Some(before.value[created[i] := next + i])
  {
    assert created[..i + 1][..i] == created[..i];
  }

  /** Once a selector is refused, the line is. */
  lemma {:induction false} ReserveStops(identities: map<Selector, int>, next: int, created: seq<Selector>, i: nat)
    requires i <= |created| && Reserve(identities, next, created[..i]).None?
    ensures Reserve(identities, next, created).None?
    decreases |created| - i
  {
    if i < |created| {
      ReserveSnoc(identities, next, created, i);
      ReserveStops(identities, next, created, i + 1);
    } else {
      assert created[..i] == created;
    }
  }

  lemma {:induction false} ReceiptsStop(st: Restoring, lines: seq<ReceiptLine>, i: nat)
    requires i <= |lines| && RestoreReceipts(st, lines[..i]).Err?
    ensures RestoreReceipts(st, lines) == RestoreReceipts(st, lines[..i])
    decreases |lines| - i
  {
    if i < |lines| {
      assert lines[..i + 1][..i] == lines[..i];
      ReceiptsStop(st, lines, i + 1);
    } else {
      assert lines[..i] == lines;
    }
  }

  lemma {:induction false} FactsStop(st: Restoring, lines: seq<FactLine>, i: nat)
    requires i <= |lines| && RestoreFacts(st, lines[..i]).Err?
    ensures RestoreFacts(st, lines) == RestoreFacts(st, lines[..i])
    decreases |lines| - i
  {
    if i < |lines| {
      assert lines[..i + 1][..i] == lines[..i];
      FactsStop(st, lines, i + 1);
    } else {
      assert lines[..i] == lines;
    }
  }

  lemma OneEventTracks(p: Db, st: Restoring)
    requires Pristine(p) && st.db == p && st.next == p.next && st.eventTx == map[p.events[0].uuid := p.events[0].tx]
    ensures Tracks(st)
  {
    SoundHas(p);
    TxsBounded(p);
  }

  class Restore {
    var next: int
    var identities: map<Selector, int>
    var eventTx: map<Uuid, int>
    var db: Db

    ghost function State(): Restoring
      reads this
    {
      Restoring(next, identities, eventTx, db)
    }

    /** Reads the identities and the genesis event of a pristine store. */
    constructor (p: Db)
      requires SelectorsDistinct(p.ids) && p.events != [] && p.next > 0 && forall id :: id in p.ids ==> 0 < id < p.next
      ensures next == p.next && db == p && Finds(identities, p.ids) && eventTx == map[p.events[0].uuid := p.events[0].tx]
      ensures Pristine(p) ==> Tracks(State())
    {
      next, db, eventTx := p.next, p, map[p.events[0].uuid := p.events[0].tx];
      identities := map[];
      new;
      for id := 1 to p.next
        invariant next == p.next && db == p && eventTx == map[p.events[0].uuid := p.events[0].tx]
        invariant forall i :: i in p.ids && i < id ==> p.ids[i].selector in identities && identities[p.ids[i].selector] == i
        invariant forall s :: s in identities ==> identities[s] in p.ids && identities[s] < id && p.ids[identities[s]].selector == s
      {
        if id in p.ids {
          identities := identities[p.ids[id].selector := id];
        }
      }
      if Pristine(p) {
        OneEventTracks(p, State());
      }
    }

    /** Restores a receipt: reserves its identities, then its transaction. */
    method Receipt(line: ReceiptLine) returns (failure: Option<Error>)
      modifies this
      ensures match RestoreReceipt(old(State()), line)
        case Err(e) => failure == Some(e)
        case Ok(st) => failure == None && State() == st
    {
      if line.uuid in eventTx {
        return Some(Conflict);
      }
      if line.payload.Some? && (line.payload.value != line.hash || PayloadCreated(line.payload.value) != line.created) {
        return Some(Conflict);
      }
      ghost var was := identities;
      for i := 0 to |line.created|
        invariant next == old(next) && eventTx == old(eventTx) && db == old(db)
        invariant Reserve(was, next, line.created[..i]) == Some(identities)
      {
        ReserveSnoc(was, next, line.created, i);
        if line.created[i] in identities {
          ReserveStops(was, next, line.created, i + 1);
          return Some(Conflict);
        }
        identities := identities[line.created[i] := next + i];
      }
      assert line.created[..|line.created|] == line.created;
      if Eid(line.uuid) in identities {
        return Some(Conflict);
      }
      var tx := next + |line.created|;
      db := db.(ids := db.ids + RestoredIds(next, line.created, line.uuid),
                events := db.events + [Event(tx, line.uuid, line.payload, line.operation, line.hash)]);
      identities := identities[Eid(line.uuid) := tx];
      eventTx := eventTx[line.uuid := tx];
      next := tx + 1;
      return None;
    }

    /** Restores a fact: inserts it live, then stamps its retraction. */
    method FactRow(line: FactLine) returns (failure: Option<Error>)
      modifies this
      ensures match RestoreFact(old(State()), line)
        case Err(e) => failure == Some(e)
        case Ok(st) => failure == None && State() == st
    {
      var key := ResolveTuple(identities, line.tuple);
      if key.None? || line.asserted !in eventTx || eventTx[line.asserted] == GENESIS_TX {
        return Some(NotFound);
      }
      var tx := eventTx[line.asserted];
      if LiveKey(db.table, key.value) {
        return Some(Conflict);
      }
      var row := Fact(db.nextRow, key.value, tx, None);
      var text := if IsText(row.key.v) then {TextRow(row.id, row.key.v)} else {};
      var hash := if IsIndirect(row.key.v) then {row.key.v.cell} else {};
      if line.retracted.None? {
        db := db.(table := db.table + [row], nextRow := db.nextRow + 1, fts := db.fts + text, blobs := db.blobs + hash);
        return None;
      }
      if line.retracted.value !in eventTx || eventTx[line.retracted.value] <= tx {
        return Some(Conflict);
      }
      db := db.(table := db.table + [row.(rx := Some(eventTx[line.retracted.value]))], nextRow := db.nextRow + 1, blobs := db.blobs + hash);
      return None;
    }

    /** Restores a whole stream and inspects the result. */
    method RestoreStream(schema: Schema, stream: Stream) returns (r: Result<Db>)
      requires Tracks(State())
      modifies this
      ensures r == Recovery.Restore(schema, old(State()), stream)
    {
      hide RestoreReceipt, RestoreFact, Tracks, Healthy;
      ghost var start := State();
      for i := 0 to |stream.receipts|
        invariant RestoreReceipts(start, stream.receipts[..i]) == Ok(State()) && Tracks(State())
      {
        assert stream.receipts[..i + 1][..i] == stream.receipts[..i];
        ghost var was := State();
        var failure := Receipt(stream.receipts[i]);
        if failure.Some? {
          ReceiptsStop(start, stream.receipts, i + 1);
          return Err(failure.value);
        }
        ReceiptTracks(was, stream.receipts[i]);
      }
      assert stream.receipts[..|stream.receipts|] == stream.receipts;
      ghost var receipts := State();
      for i := 0 to |stream.facts|
        invariant RestoreFacts(receipts, stream.facts[..i]) == Ok(State()) && Tracks(State())
      {
        assert stream.facts[..i + 1][..i] == stream.facts[..i];
        ghost var was := State();
        var failure := FactRow(stream.facts[i]);
        if failure.Some? {
          FactsStop(receipts, stream.facts, i + 1);
          return Err(failure.value);
        }
        FactTracks(was, stream.facts[i]);
      }
      assert stream.facts[..|stream.facts|] == stream.facts;
      if stream.basis != EventAt(db.ids, Basis(db.events)) {
        return Err(Conflict);
      }
      var restored := db.(next := next);
      TracksEvents(State());
      var ok := Inspect(schema, restored);
      return if ok then Ok(restored) else Err(Malformed);
    }
  }

  lemma TracksEvents(st: Restoring)
    requires Tracks(st)
    ensures Enumerated(st.db.events)
  {
  }
}
