/** Replication: a replica plans each event of a stream again, from its portable record alone, and
    notes when it was recorded at its origin.  This module proves that a replica which mirrors its
    origin accepts every event, mirrors the origin afterwards, and would export the same record. */
module Replica {
  import opened Facts
  import opened Planner
  import opened Localization
  import opened Identities
  import opened History
  import opened Replay
  import opened Store
  import opened Soundness
  import opened Runs
  import opened Constraints
  import opened Exports
  import opened Snapshot
  import opened Retained

  // ----- reading an event -----

  function ClaimOf(s: Selector): Claim {
    match s
    case Name(text) => Named(text)
    case Eid(uuid) => Imported(uuid)
  }

  /** What the replica knows while it plans an event: identities by selector, and the claims of
      those the event creates. */
  datatype Known = Known(index: map<Selector, int>, claims: seq<Claim>)

  /** Allocates the identities an event creates, in its order; known ones are kept, and a name may
      be repeated, but no other identity. */
  function Preallocate(index: map<Selector, int>, next: int, created: seq<Selector>): Result<Known> {
    if created == [] then Ok(Known(index, []))
    else
      var n := |created| - 1;
      match Preallocate(index, next, created[..n])
      case Err(e) => Err(e)
      case Ok(before) =>
        if created[n] !in before.index then
          Ok(Known(before.index[created[n] := next + |before.claims|], before.claims + [ClaimOf(created[n])]))
        else if created[n] in index || created[n].Name? then Ok(before)
        else Err(Conflict)
  }

  /** A tuple about the event's own transaction; the transaction stands as entity 0. */
  function OwnKey(index: map<Selector, int>, t: Tuple): Option<Triple> {
    var v := ResolveValue(index, t.v);
    if t.a !in index || v.None? then None else Some(Triple(0, index[t.a], v.value))
  }

  function KeyOf(index: map<Selector, int>, uuid: Uuid, t: Tuple): Option<Triple> {
    if t.e == Eid(uuid) then OwnKey(index, t) else ResolveTuple(index, t)
  }

  function KeysOfTuples(index: map<Selector, int>, uuid: Uuid, tuples: seq<Tuple>): Option<seq<Triple>> {
    if tuples == [] then Some([])
    else
      var n := |tuples| - 1;
      var before, last := KeysOfTuples(index, uuid, tuples[..n]), KeyOf(index, uuid, tuples[n]);
      if before.None? || last.None? then None else Some(before.value + [last.value])
  }

  predicate IsMeta(k: Triple) {
    k.e == 0 && ReservedMeta(k.a)
  }

  function MetaOf(keys: seq<Triple>): seq<Triple> {
    if keys == [] then [] else (if IsMeta(keys[0]) then [keys[0]] else []) + MetaOf(keys[1..])
  }

  function FactsOf(keys: seq<Triple>): seq<Triple> {
    if keys == [] then [] else (if IsMeta(keys[0]) then [] else [keys[0]]) + FactsOf(keys[1..])
  }

  /** An event's facts about its own transaction under the attributes 1 to 4 (timestamp, author, source
      and metadata) travel as metadata; all other facts travel as operations. */
  lemma {:induction false} MetaExactly(keys: seq<Triple>, k: Triple)
    ensures k in MetaOf(keys) <==> k in keys && k.e == 0 && k.a in {1, 2, 3, 4}
    ensures k in FactsOf(keys) <==> k in keys && !(k.e == 0 && k.a in {1, 2, 3, 4})
  {
    if keys != [] {
      MetaExactly(keys[1..], k);
      assert k in keys <==> k == keys[0] || k in keys[1..];
    }
  }

  function Retracts(keys: seq<Triple>): seq<Op> {
    seq(|keys|, i requires 0 <= i < |keys| => Retract(keys[i].e, Some(keys[i].a), Some(keys[i].v)))
  }

  function Asserts(keys: seq<Triple>): seq<Op> {
    seq(|keys|, i requires 0 <= i < |keys| => Assert(keys[i]))
  }

  /** When the event was recorded at its origin. */
  function ImportKey(at: int): Triple {
    Triple(0, ATTR_IMPORTED, Value(TAG_INSTANT, at))
  }

  /** The request a replica makes of an event: retractions first, then assertions, and last the
      origin's instant. */
  function EventRequest(next: int, index: map<Selector, int>, uuid: Uuid, payload: Payload, at: int): Result<Request>
    requires payload.Changes?
  {
    match Preallocate(index, next, payload.created)
    case Err(e) => Err(e)
    case Ok(known) =>
      var gone, come := KeysOfTuples(known.index, uuid, payload.retracted), KeysOfTuples(known.index, uuid, payload.asserted);
      if gone.None? || come.None? then Err(NotFound)
      else Ok(Request(known.claims, Retracts(gone.value) + Asserts(FactsOf(come.value)) + [Assert(ImportKey(payload.at))],
                      MetaOf(come.value), true, None, None, at, uuid))
  }

  // ----- mirrors -----

  /** A row that says when its transaction was imported. */
  predicate Local(f: Fact) {
    f.key.e == f.tx && f.key.a == ATTR_IMPORTED
  }

  /** The rows that replication carries over. */
  function Lasting(table: seq<Fact>): seq<Fact> {
    if table == [] then [] else (if Local(table[0]) then [] else [table[0]]) + Lasting(table[1..])
  }

  lemma {:induction false} LastingRows(table: seq<Fact>, f: Fact)
    ensures f in Lasting(table) <==> f in table && !Local(f)
  {
    if table != [] { LastingRows(table[1..], f); }
  }

  /** Two rows that differ in their number and at most in a transaction's timestamp. */
  predicate SameButTime(f: Fact, g: Fact) {
    && f.tx == g.tx && f.rx == g.rx && f.key.e == g.key.e && f.key.a == g.key.a
    && (f.key.v == g.key.v || (f.key.a == ATTR_AT && f.key.e == f.tx))
  }

  ghost predicate Paired(s: seq<Fact>, t: seq<Fact>) {
    |s| == |t| && forall i :: 0 <= i < |s| ==> SameButTime(s[i], t[i])
  }

  predicate SameEvent(e: Event, f: Event) {
    e.tx == f.tx && e.uuid == f.uuid && e.payload == f.payload && e.hash == f.hash
  }

  /** The replica has the identities, transactions and records of the origin, and its rows in the
      same order; it numbers them itself and has its own timestamps, import notes and operation
      receipts. */
  ghost predicate Mirrors(o: Db, r: Db) {
    && r.ids == o.ids && r.next == o.next
    && |r.events| == |o.events| && (forall i :: 0 <= i < |o.events| ==> SameEvent(o.events[i], r.events[i]))
    && Paired(Lasting(o.table), Lasting(r.table))
  }

  /** Attributes under which a transaction's timestamps stand. */
  predicate TimeAttr(a: int) {
    a == ATTR_AT || a == ATTR_IMPORTED
  }

  lemma MirrorRow(s: seq<Fact>, t: seq<Fact>, f: Fact)
    requires Paired(Lasting(s), Lasting(t))
    ensures f in s && !Local(f) ==> exists g :: g in t && SameButTime(f, g)
    ensures f in t && !Local(f) ==> exists g :: g in s && SameButTime(g, f)
  {
    var a, b := Lasting(s), Lasting(t);
    LastingRows(s, f);
    LastingRows(t, f);
    if f in a {
      var i :| 0 <= i < |a| && a[i] == f;
      LastingRows(t, b[i]);
      assert SameButTime(a[i], b[i]) && b[i] in b;
    }
    if f in b {
      var i :| 0 <= i < |b| && b[i] == f;
      LastingRows(s, a[i]);
      assert SameButTime(a[i], b[i]) && a[i] in a;
    }
  }

  lemma MirrorTxs(o: Db, r: Db)
    requires Mirrors(o, r)
    ensures Txs(r.events) == Txs(o.events)
  {
    forall tx | tx in Txs(o.events) ensures tx in Txs(r.events) {
      var ev :| ev in o.events && ev.tx == tx;
      var i :| 0 <= i < |o.events| && o.events[i] == ev;
      assert SameEvent(o.events[i], r.events[i]) && r.events[i] in r.events;
    }
    forall tx | tx in Txs(r.events) ensures tx in Txs(o.events) {
      var ev :| ev in r.events && ev.tx == tx;
      var i :| 0 <= i < |r.events| && r.events[i] == ev;
      assert SameEvent(o.events[i], r.events[i]) && o.events[i] in o.events;
    }
  }

  lemma RowOfKey(rows: seq<Fact>, k: Triple) returns (f: Fact)
    requires k in Keys(rows)
    ensures f in rows && f.key == k
  {
    f :| f in rows && f.key == k;
  }

  /** What is live on a mirror is what is live at the origin, except for timestamps of transactions. */
  lemma MirrorLive(o: Db, r: Db, k: Triple)
    requires Mirrors(o, r) && Sound(o) && Sound(r)
    ensures k in Keys(LiveOf(o.table)) && k.e !in Txs(o.events) ==> k in Keys(LiveOf(r.table))
    ensures k in Keys(LiveOf(r.table)) ==> k in Keys(LiveOf(o.table)) || (k.e in Txs(o.events) && TimeAttr(k.a))
  {
    hide Sound;
    MirrorTxs(o, r);
    if k in Keys(LiveOf(o.table)) && k.e !in Txs(o.events) {
      var f := RowOfKey(LiveOf(o.table), k);
      SoundRow(o, f);
      MirrorRow(o.table, r.table, f);
      var g :| g in r.table && SameButTime(f, g);
      assert g in LiveOf(r.table);
    }
    if k in Keys(LiveOf(r.table)) {
      var f := RowOfKey(LiveOf(r.table), k);
      SoundRow(r, f);
      MirrorRow(o.table, r.table, f);
      if !Local(f) {
        var g :| g in o.table && SameButTime(g, f);
        assert g in LiveOf(o.table);
        assert g.key in Keys(LiveOf(o.table));
      }
    }
  }

  // ----- the delta as the replica plans it -----

  /** Where an asserted triple lands before it is put on the transaction. */
  function Moved(o: Db, req: Request, delta: Delta, k: Triple): Triple {
    RenameTriple(o.next, Prepare(o, delta, req.claims).kept, k)
  }

  /** A planned import note of the transaction itself. */
  predicate IsImport(k: Triple) {
    k.e == 0 && k.a == ATTR_IMPORTED
  }

  /** The assertions that the record carries. */
  function Carried(list: seq<Planned>): seq<Planned> {
    if list == [] then [] else (if IsImport(list[0].key) then [] else [list[0]]) + Carried(list[1..])
  }

  lemma {:induction false} CarriedAre(list: seq<Planned>, p: Planned)
    ensures p in Carried(list) <==> p in list && !IsImport(p.key)
  {
    if list != [] { CarriedAre(list[1..], p); }
  }

  ghost predicate InOrder(list: seq<Planned>) {
    forall i, j :: 0 <= i < j < |list| ==> list[i].order < list[j].order
  }

  lemma {:induction false} CarriedInOrder(list: seq<Planned>)
    requires InOrder(list)
    ensures InOrder(Carried(list))
  {
    if list != [] {
      var rest := Carried(list[1..]);
      CarriedInOrder(list[1..]);
      forall p | p in rest ensures list[0].order < p.order {
        CarriedAre(list[1..], p);
        var j :| 0 <= j < |list[1..]| && list[1..][j] == p;
        assert list[j + 1] == p;
      }
      ConsInOrder(list[0], rest);
      assert Carried(list) == if IsImport(list[0].key) then rest else [list[0]] + rest;
    }
  }

  lemma ConsInOrder(p: Planned, list: seq<Planned>)
    requires InOrder(list) && forall q :: q in list ==> p.order < q.order
    ensures InOrder([p] + list)
  {
    var r := [p] + list;
    forall i, j | 0 <= i < j < |r| ensures r[i].order < r[j].order {
      assert r[j] == list[j - 1] && list[j - 1] in list;
      if i > 0 { assert r[i] == list[i - 1]; }
    }
  }

  function MovedList(o: Db, req: Request, delta: Delta): seq<Triple> {
    var carried := Carried(delta.assertions);
    seq(|carried|, i requires 0 <= i < |carried| => Moved(o, req, delta, carried[i].key))
  }

  function MovedAssertions(o: Db, req: Request, delta: Delta): seq<Planned> {
    var carried := Carried(delta.assertions);
    seq(|carried|, i requires 0 <= i < |carried| => Planned(Moved(o, req, delta, carried[i].key), carried[i].order))
  }

  /** The live rows of the replica that say what the delta retracts. */
  function Matching(r: Db, delta: Delta): seq<Fact> {
    Keep(LiveOf(r.table), set g | g in LiveOf(r.table) && g.key in Keys(delta.retractions))
  }

  /** The instant that the record of the commit carries. */
  function StampOf(schema: Schema, o: Db, req: Request, delta: Delta): int {
    OriginTime(TimeKeys(Committed(schema, o, req, delta).table, TxOf(o, req, delta)))
  }

  function MovedDelta(schema: Schema, o: Db, r: Db, req: Request, delta: Delta): Delta {
    Delta(MovedAssertions(o, req, delta) + [Planned(ImportKey(StampOf(schema, o, req, delta)), |req.ops|)], Matching(r, delta))
  }

  lemma MovedShape(schema: Schema, o: Db, req: Request, delta: Delta, p: Planned)
    requires Committing(schema, o, req, delta) && p in delta.assertions
    ensures var k, tx := Moved(o, req, delta, p.key), TxOf(o, req, delta);
      && OnTransaction(tx, k) == Final(o.next, Prepare(o, delta, req.claims).kept, p.key)
      && (k.e == 0 || (GENESIS_TX < k.e < tx && k.e !in Txs(o.events)))
      && (k.e == 0 <==> p.key.e == 0) && (k.e == 0 ==> !ReservedMeta(k.a))
      && 0 < k.a < tx && (k.v.tag == TAG_REF ==> k.v.cell < tx)
      && (forall id :: id in Mentions(k) && id != 0 ==> id in o.ids || o.next <= id < tx)
      && k !in Keys(LiveOf(o.table))
  {
    var mentioned, kept := MentionedBy(PlannedList(delta.assertions)), Prepare(o, delta, req.claims).kept;
    TxsBounded(o);
    AssertionsSettled(schema, o, req, delta);
    FinalShape(o.next, req.claims, mentioned, p.key);
    AssertedKeyShape(schema, o, req, delta, p);
    MovedEntity(schema, o, req, delta, p);
    EntitiesPositive(o);
  }

  /** Moving neither makes nor unmakes an import note, and keeps import notes instants. */
  lemma MovedImport(schema: Schema, o: Db, req: Request, delta: Delta, p: Planned)
    requires Committing(schema, o, req, delta) && p in delta.assertions
    ensures var k := Moved(o, req, delta, p.key);
      && (IsImport(k) <==> IsImport(p.key)) && (k.a == ATTR_IMPORTED ==> k.v.tag == TAG_INSTANT)
  {
    hide Committing, Moved, Final;
    MovedShape(schema, o, req, delta, p);
    AttributeKept(schema, o, req, delta, p);
    ImportedIsInstant(schema, o, req, delta, p);
  }

  lemma AttributeKept(schema: Schema, o: Db, req: Request, delta: Delta, p: Planned)
    requires Committing(schema, o, req, delta) && p in delta.assertions
    ensures Moved(o, req, delta, p.key).a == ATTR_IMPORTED <==> p.key.a == ATTR_IMPORTED
  {
    TxsBounded(o);
    var mentioned := MentionedBy(PlannedList(delta.assertions));
    RenameExactly(o.next, req.claims, mentioned);
    KeptExactly(o.next, req.claims, mentioned);
  }

  lemma EntitiesPositive(o: Db)
    requires Sound(o)
    ensures forall k :: k in Keys(LiveOf(o.table)) ==> k.e > 0
  {
    forall f | f in LiveOf(o.table) ensures f.key.e > 0 {
      assert RowOk(o, f) && f.key.e in Mentions(f.key);
    }
  }

  lemma MovedEntity(schema: Schema, o: Db, req: Request, delta: Delta, p: Planned)
    requires Committing(schema, o, req, delta) && p in delta.assertions
    ensures var k := Moved(o, req, delta, p.key); k.e != 0 ==> k.e > GENESIS_TX
  {
    var mentioned := MentionedBy(PlannedList(delta.assertions));
    TxsBounded(o);
    AssertionsSettled(schema, o, req, delta);
    RenameExactly(o.next, req.claims, mentioned);
    KeptExactly(o.next, req.claims, mentioned);
    assert Assert(p.key) in req.ops;
    assert p.key.e == 0 || Writable(LiveOf(o.table), p.key.e);
  }

  /** An asserted key of the replica's delta is the import note, or a moved key that is none. */
  lemma MovedAt(schema: Schema, o: Db, r: Db, req: Request, delta: Delta, k': Triple) returns (p: Planned)
    requires k' in PlannedKeys(MovedDelta(schema, o, r, req, delta).assertions)
    ensures k' == ImportKey(StampOf(schema, o, req, delta))
      || (p in delta.assertions && !IsImport(p.key) && k' == Moved(o, req, delta, p.key) && p.key in PlannedKeys(delta.assertions))
  {
    hide StampOf;
    var list, carried := MovedAssertions(o, req, delta), Carried(delta.assertions);
    var full := MovedDelta(schema, o, r, req, delta).assertions;
    var q :| q in full && q.key == k';
    var i :| 0 <= i < |full| && full[i] == q;
    if i < |list| {
      p := carried[i];
      CarriedAre(delta.assertions, p);
      assert full[i] == list[i];
    } else {
      p := Planned(k', 0);
    }
  }

  lemma MovedNotLive(schema: Schema, o: Db, r: Db, req: Request, delta: Delta, p: Planned)
    requires Committing(schema, o, req, delta) && Mirrors(o, r) && Sound(r) && p in delta.assertions
    ensures Moved(o, req, delta, p.key) !in Keys(LiveOf(r.table))
  {
    hide Committing, Moved, Mirrors, Sound, LiveOf, Keys;
    CommittingSound(schema, o, req, delta);
    MovedShape(schema, o, req, delta, p);
    EntitiesPositive(r);
    MirrorLive(o, r, Moved(o, req, delta, p.key));
  }

  lemma MovedNet(schema: Schema, o: Db, r: Db, req: Request, delta: Delta)
    requires Committing(schema, o, req, delta) && Mirrors(o, r) && Sound(r)
    ensures Net(LiveOf(r.table), MovedDelta(schema, o, r, req, delta))
  {
    hide Committing, Sound, Moved, Mirrors, StampOf, MovedAssertions;
    var d := MovedDelta(schema, o, r, req, delta);
    LiveRowsOf(r);
    KeepById(LiveOf(r.table), set g | g in LiveOf(r.table) && g.key in Keys(delta.retractions));
    EntitiesPositive(r);
    forall k' | k' in PlannedKeys(d.assertions) ensures k' !in Keys(LiveOf(r.table)) {
      var p := MovedAt(schema, o, r, req, delta, k');
      if p in delta.assertions { MovedNotLive(schema, o, r, req, delta, p); }
    }
    MovedInOrder(schema, o, req, delta);
    var list := MovedAssertions(o, req, delta);
    forall i, j | 0 <= i < j < |d.assertions|
      ensures d.assertions[i].order < d.assertions[j].order && d.assertions[i].key != d.assertions[j].key
    {
      assert d.assertions[i] == list[i];
      if j < |list| { assert d.assertions[j] == list[j]; }
    }
  }

  lemma MovedInOrder(schema: Schema, o: Db, req: Request, delta: Delta)
    requires Committing(schema, o, req, delta)
    ensures var list := MovedAssertions(o, req, delta);
      && (forall i, j :: 0 <= i < j < |list| ==> list[i].order < list[j].order && list[i].key != list[j].key)
      && (forall i :: 0 <= i < |list| ==> list[i].order < |req.ops| && !IsImport(list[i].key))
  {
    hide Committing, Moved;
    var carried, list := Carried(delta.assertions), MovedAssertions(o, req, delta);
    DeltaOrders(schema, o, req, delta);
    CarriedInOrder(delta.assertions);
    forall i | 0 <= i < |list| ensures list[i].order < |req.ops| && !IsImport(list[i].key) {
      CarriedAre(delta.assertions, carried[i]);
      MovedImport(schema, o, req, delta, carried[i]);
    }
    forall i, j | 0 <= i < j < |list| ensures list[i].order < list[j].order && list[i].key != list[j].key {
      CarriedAre(delta.assertions, carried[i]);
      CarriedAre(delta.assertions, carried[j]);
      MovedDiffer(schema, o, req, delta, carried[i], carried[j]);
    }
  }

  lemma DeltaOrders(schema: Schema, o: Db, req: Request, delta: Delta)
    requires Committing(schema, o, req, delta)
    ensures forall i, j :: 0 <= i < j < |delta.assertions| ==> delta.assertions[i].order < delta.assertions[j].order
    ensures forall p :: p in delta.assertions ==> p.order < |req.ops|
  {
    var rows := LiveOf(o.table);
    PlanRefines(schema, rows, req.ops);
    RunOrders(schema, Receipts(rows), rows, req.ops);
  }

  lemma MovedDiffer(schema: Schema, o: Db, req: Request, delta: Delta, p: Planned, q: Planned)
    requires Committing(schema, o, req, delta) && p in delta.assertions && q in delta.assertions && p.order < q.order
    ensures Moved(o, req, delta, p.key) != Moved(o, req, delta, q.key)
  {
    hide Committing, Moved, Final;
    DeltaOrders(schema, o, req, delta);
    var i :| 0 <= i < |delta.assertions| && delta.assertions[i] == p;
    var j :| 0 <= j < |delta.assertions| && delta.assertions[j] == q;
    assert i < j;
    AssertedKeysDistinct(schema, o, req, delta, i, j);
    MovedShape(schema, o, req, delta, p);
    MovedShape(schema, o, req, delta, q);
  }

  /** Moving keeps slots and rivals apart. */
  lemma MovedApart(schema: Schema, o: Db, req: Request, delta: Delta, k: Triple, l: Triple)
    requires o.next > GENESIS_TX && SchemaFits(schema, o.next)
    requires var kept := Prepare(o, delta, req.claims).kept; Settled(o.next, kept, k) && Settled(o.next, kept, l)
    ensures var k', l' := Moved(o, req, delta, k), Moved(o, req, delta, l);
      && (SameSlot(k', l') ==> SameSlot(k, l)) && (Rivals(k', l') ==> Rivals(k, l))
      && (k'.a in schema.many <==> k.a in schema.many) && (k'.a in schema.unique <==> k.a in schema.unique)
  {
    var mentioned := MentionedBy(PlannedList(delta.assertions));
    FinalApart(schema, o.next, req.claims, mentioned, k, l);
    FinalShape(o.next, req.claims, mentioned, k);
    FinalShape(o.next, req.claims, mentioned, l);
  }

  /** What the outcome on the replica comes from: the outcome at the origin, a timestamp, or the
      import note. */
  lemma MirrorOutcome(schema: Schema, o: Db, r: Db, req: Request, delta: Delta, l': Triple) returns (l: Triple)
    requires Committing(schema, o, req, delta) && Mirrors(o, r) && Sound(r)
    requires l' in Outcome(LiveOf(r.table), MovedDelta(schema, o, r, req, delta))
    ensures (l'.e in Txs(o.events) && TimeAttr(l'.a)) || l' == ImportKey(StampOf(schema, o, req, delta))
      || (l in Outcome(LiveOf(o.table), delta) && Settled(o.next, Prepare(o, delta, req.claims).kept, l)
          && l' == Moved(o, req, delta, l) && (l'.e == 0 ==> !IsImport(l')))
  {
    hide Committing, Mirrors, Moved, StampOf, Sound, Settled;
    var d := MovedDelta(schema, o, r, req, delta);
    CommittingSound(schema, o, req, delta);
    l := l';
    if l' in PlannedKeys(d.assertions) {
      var p := MovedAt(schema, o, r, req, delta, l');
      if l' != ImportKey(StampOf(schema, o, req, delta)) {
        AssertionsSettled(schema, o, req, delta);
        MovedImport(schema, o, req, delta, p);
        l := p.key;
      }
    } else if !(l'.e in Txs(o.events) && TimeAttr(l'.a)) {
      MirrorLive(o, r, l');
      EntitiesPositive(r);
      MatchedKeys(r, delta);
      StaysSettled(schema, o, req, delta, l');
    }
  }

  /** The rows the replica retracts are exactly those with a retracted key. */
  lemma MatchedKeys(r: Db, delta: Delta)
    ensures forall k :: k in Keys(Matching(r, delta)) <==> k in Keys(LiveOf(r.table)) && k in Keys(delta.retractions)
  {
    var rows := Matching(r, delta);
    forall k | k in Keys(LiveOf(r.table)) && k in Keys(delta.retractions) ensures k in Keys(rows) {
      var g :| g in LiveOf(r.table) && g.key == k;
      assert g in rows;
    }
  }

  lemma StaysSettled(schema: Schema, o: Db, req: Request, delta: Delta, l: Triple)
    requires Committing(schema, o, req, delta) && l in Keys(LiveOf(o.table)) && l !in Keys(delta.retractions)
    ensures l in Outcome(LiveOf(o.table), delta) && Settled(o.next, Prepare(o, delta, req.claims).kept, l) && l == Moved(o, req, delta, l)
  {
    var f := RowOfKey(LiveOf(o.table), l);
    PlanRefines(schema, LiveOf(o.table), req.ops);
    assert f !in Gone(delta);
    OldKeySettled(o, req, delta, f);
    OldMoves(o, req, delta, f);
  }

  lemma OldMoves(o: Db, req: Request, delta: Delta, f: Fact)
    requires Sound(o) && f in o.table
    ensures Moved(o, req, delta, f.key) == f.key
  {
    assert RowOk(o, f);
    KeptExactly(o.next, req.claims, MentionedBy(PlannedList(delta.assertions)));
    RenameOld(o.next, Prepare(o, delta, req.claims).kept, f.key);
  }

  lemma MovedPair(schema: Schema, o: Db, r: Db, req: Request, delta: Delta, k': Triple, l': Triple)
    requires Committing(schema, o, req, delta) && Mirrors(o, r) && Sound(r) && SchemaFits(schema, o.next)
    requires SlotsFree(schema, LiveOf(o.table), delta) && ValuesFree(schema, LiveOf(o.table), delta)
    requires k' in PlannedKeys(MovedDelta(schema, o, r, req, delta).assertions)
    requires l' in Outcome(LiveOf(r.table), MovedDelta(schema, o, r, req, delta))
    ensures k'.a !in schema.many && SameSlot(k', l') ==> k' == l'
    ensures k'.a in schema.unique ==> !Rivals(k', l')
  {
    hide Committing, Moved, Outcome, Sound, Mirrors, StampOf, MovedDelta, SlotsFree, ValuesFree;
    var p := MovedAt(schema, o, r, req, delta, k');
    var l := MirrorOutcome(schema, o, r, req, delta, l');
    CommittingSound(schema, o, req, delta);
    NextAboveGenesis(o);
    var note := ImportKey(StampOf(schema, o, req, delta));
    if k' != note {
      MovedShape(schema, o, req, delta, p);
      MovedImport(schema, o, req, delta, p);
      if !(l'.e in Txs(o.events) && TimeAttr(l'.a)) && l' != note {
        AssertionsSettled(schema, o, req, delta);
        MovedApart(schema, o, req, delta, p.key, l);
        FreePair(schema, LiveOf(o.table), delta, p.key, l);
      }
    }
  }

  lemma FreePair(schema: Schema, rows: seq<Fact>, delta: Delta, k: Triple, l: Triple)
    requires SlotsFree(schema, rows, delta) && ValuesFree(schema, rows, delta) && k in PlannedKeys(delta.assertions) && l in Outcome(rows, delta)
    ensures (k.a !in schema.many && SameSlot(k, l) ==> k == l) && (k.a in schema.unique ==> !Rivals(k, l))
  {
  }

  lemma NextAboveGenesis(o: Db)
    requires Sound(o)
    ensures o.next > GENESIS_TX && 0 !in Txs(o.events)
  {
    TxsBounded(o);
  }

  lemma MovedFree(schema: Schema, o: Db, r: Db, req: Request, delta: Delta)
    requires Committing(schema, o, req, delta) && Mirrors(o, r) && Sound(r) && SchemaFits(schema, o.next)
    requires ValuesFree(schema, LiveOf(o.table), delta)
    ensures SlotsFree(schema, LiveOf(r.table), MovedDelta(schema, o, r, req, delta))
    ensures ValuesFree(schema, LiveOf(r.table), MovedDelta(schema, o, r, req, delta))
  {
    var rows, d := LiveOf(r.table), MovedDelta(schema, o, r, req, delta);
    PlanSlotsFree(schema, LiveOf(o.table), req.ops);
    hide Committing, Outcome, MovedDelta, Sound, Plan;
    forall k', l' | k' in PlannedKeys(d.assertions) && l' in Outcome(rows, d)
      ensures (k'.a !in schema.many && SameSlot(k', l') ==> k' == l') && (k'.a in schema.unique ==> !Rivals(k', l'))
    {
      MovedPair(schema, o, r, req, delta, k', l');
    }
  }

  /** The replica plans the origin's delta again, with the import note. */
  lemma ReplicaPlans(schema: Schema, o: Db, r: Db, req: Request, delta: Delta)
    requires Committing(schema, o, req, delta) && Mirrors(o, r) && Sound(r) && SchemaFits(schema, o.next)
    requires ValuesFree(schema, LiveOf(o.table), delta)
    ensures var d := MovedDelta(schema, o, r, req, delta); Plan(schema, LiveOf(r.table), ReplayOps(d)) == Ok(Renumbered(d))
  {
    hide *;
    MovedNet(schema, o, r, req, delta);
    MovedFree(schema, o, r, req, delta);
    LiveRowsOf(r);
    ReplayFixedPoint(schema, LiveOf(r.table), MovedDelta(schema, o, r, req, delta));
  }

  lemma LiveRowsOf(db: Db)
    requires Sound(db)
    ensures LiveRows(LiveOf(db.table))
  {
  }

  // ----- the record of a commit -----

  /** The keys of new rows of `tx` that the record carries, and its import notes. */
  function CarryKeys(tx: int, keys: seq<Triple>): seq<Triple> {
    if keys == [] then []
    else (if keys[0].e == tx && keys[0].a == ATTR_IMPORTED then [] else [keys[0]]) + CarryKeys(tx, keys[1..])
  }

  function NoteKeys(tx: int, keys: seq<Triple>): seq<Triple> {
    if keys == [] then []
    else (if keys[0].e == tx && keys[0].a == ATTR_IMPORTED then [keys[0]] else []) + NoteKeys(tx, keys[1..])
  }

  lemma {:induction false} CarryConcat(tx: int, s: seq<Triple>, t: seq<Triple>)
    ensures CarryKeys(tx, s + t) == CarryKeys(tx, s) + CarryKeys(tx, t)
  {
    if s == [] {
      assert s + t == t;
    } else {
      assert (s + t)[0] == s[0] && (s + t)[1..] == s[1..] + t;
      CarryConcat(tx, s[1..], t);
      var head, rest, tail := if s[0].e == tx && s[0].a == ATTR_IMPORTED then [] else [s[0]], CarryKeys(tx, s[1..]), CarryKeys(tx, t);
      assert CarryKeys(tx, s) == head + rest;
      assert CarryKeys(tx, s + t) == head + CarryKeys(tx, s[1..] + t);
      assert head + (rest + tail) == (head + rest) + tail;
    }
  }

  lemma {:induction false} NotesConcat(tx: int, s: seq<Triple>, t: seq<Triple>)
    ensures NoteKeys(tx, s + t) == NoteKeys(tx, s) + NoteKeys(tx, t)
  {
    if s == [] {
      assert s + t == t;
    } else {
      assert (s + t)[0] == s[0] && (s + t)[1..] == s[1..] + t;
      NotesConcat(tx, s[1..], t);
      var head, rest, tail := if s[0].e == tx && s[0].a == ATTR_IMPORTED then [s[0]] else [], NoteKeys(tx, s[1..]), NoteKeys(tx, t);
      assert NoteKeys(tx, s) == head + rest;
      assert NoteKeys(tx, s + t) == head + NoteKeys(tx, s[1..] + t);
      assert head + (rest + tail) == (head + rest) + tail;
    }
  }

  lemma {:induction false} CarryAll(tx: int, keys: seq<Triple>)
    requires forall k :: k in keys ==> !(k.e == tx && k.a == ATTR_IMPORTED)
    ensures CarryKeys(tx, keys) == keys && NoteKeys(tx, keys) == []
  {
    if keys != [] { CarryAll(tx, keys[1..]); }
  }

  lemma {:induction false} CarriedIn(tx: int, keys: seq<Triple>, k: Triple)
    requires k in CarryKeys(tx, keys)
    ensures k in keys
  {
    if k in CarryKeys(tx, keys[1..]) { CarriedIn(tx, keys[1..], k); }
  }

  lemma FreshCons(next: nat, keys: seq<Triple>, tx: int)
    requires keys != []
    ensures Fresh(next, keys, tx) == [Fact(next, keys[0], tx, None)] + Fresh(next + 1, keys[1..], tx)
    ensures Fresh(next, keys, tx)[0] == Fact(next, keys[0], tx, None) && Fresh(next, keys, tx)[1..] == Fresh(next + 1, keys[1..], tx)
  {
    var rest := Fresh(next + 1, keys[1..], tx);
    forall i | 0 <= i < |keys| ensures Fresh(next, keys, tx)[i] == ([Fact(next, keys[0], tx, None)] + rest)[i] {
      if i > 0 { assert rest[i - 1] == Fact(next + 1 + (i - 1), keys[1..][i - 1], tx, None); }
    }
  }

  /** What a commit exports of its new rows, the first of which is the timestamp. */
  lemma {:induction false} FreshExports(next: nat, keys: seq<Triple>, tx: int)
    requires forall k :: k in keys ==> !(k.e == tx && k.a == ATTR_AT)
    ensures AssertedKeys(Fresh(next, keys, tx), tx) == CarryKeys(tx, keys) && TimeKeys(Fresh(next, keys, tx), tx) == NoteKeys(tx, keys)
    decreases |keys|
  {
    if keys != [] {
      FreshCons(next, keys, tx);
      FreshExports(next + 1, keys[1..], tx);
      assert keys[0] in keys;
    }
  }

  lemma StampedExports(next: nat, keys: seq<Triple>, tx: int)
    requires keys != [] && keys[0].e == tx && keys[0].a == ATTR_AT && forall k :: k in keys[1..] ==> !(k.e == tx && k.a == ATTR_AT)
    ensures AssertedKeys(Fresh(next, keys, tx), tx) == CarryKeys(tx, keys[1..])
    ensures TimeKeys(Fresh(next, keys, tx), tx) == [keys[0]] + NoteKeys(tx, keys[1..])
  {
    FreshCons(next, keys, tx);
    FreshExports(next + 1, keys[1..], tx);
  }

  /** The retracted rows that are stamped rather than deleted. */
  function Stamped(schema: Schema, gone: set<Fact>): set<Fact> {
    set f | f in gone && f.key.a !in schema.nohistory
  }

  lemma {:induction false} StampedKeys(schema: Schema, table: seq<Fact>, gone: set<Fact>, tx: int)
    requires forall f :: f in table ==> f.rx != Some(tx)
    ensures RetractedKeys(Retired(schema, table, gone, tx), tx) == KeyList(Keep(table, Stamped(schema, gone)))
  {
    if table != [] {
      hide RetractedKeys, RetireRow, Stamped;
      var head := if table[0] in Stamped(schema, gone) then [table[0]] else [];
      StampedKeys(schema, table[1..], gone, tx);
      RetractedConcat(RetireRow(schema, table[0], gone, tx), Retired(schema, table[1..], gone, tx), tx);
      KeyListConcat(head, Keep(table[1..], Stamped(schema, gone)));
      assert table[0] in table;
      OneRetired(schema, table[0], gone, tx);
      assert KeyList(head) == if table[0] in Stamped(schema, gone) then [table[0].key] else [];
    }
  }

  lemma OneRetired(schema: Schema, f: Fact, gone: set<Fact>, tx: int)
    requires f.rx != Some(tx)
    ensures RetractedKeys(RetireRow(schema, f, gone, tx), tx) == if f in Stamped(schema, gone) then [f.key] else []
  {
    var row := RetireRow(schema, f, gone, tx);
    if row != [] {
      assert row == [row[0]] && RetractedKeys(row[1..], tx) == [];
    }
  }

  /** A commit's record lists the keys of its new rows but for the timestamps, and the keys of the
      rows it stamped, both in row order; its instant is read off the timestamps. */
  lemma RecordedKeys(schema: Schema, o: Db, req: Request, delta: Delta)
    requires Committing(schema, o, req, delta)
    ensures var table, tx, keys := Committed(schema, o, req, delta).table, TxOf(o, req, delta), KeysOf(o, req, delta);
      && |keys| > 0
      && AssertedKeys(table, tx) == CarryKeys(tx, keys[1..])
      && TimeKeys(table, tx) == [keys[0]] + NoteKeys(tx, keys[1..])
      && RetractedKeys(table, tx) == KeyList(Keep(delta.retractions, Stamped(schema, Gone(delta))))
  {
    hide Committing, Committed, KeysOf, Sound;
    var tx, keys, gone := TxOf(o, req, delta), KeysOf(o, req, delta), Gone(delta);
    CommittingSound(schema, o, req, delta);
    CommitParts(schema, o, req, delta);
    OldRowsEarlier(o);
    OneTimestamp(schema, o, req, delta);
    RetractionsKept(schema, o, req, delta);
    KeepKeep(o.table, gone, Stamped(schema, gone));
    assert gone * Stamped(schema, gone) == Stamped(schema, gone);
    var retired, added := Retired(schema, o.table, gone, tx), Fresh(o.nextRow, keys, tx);
    KeysConcat(retired, added, tx);
    StampedKeys(schema, o.table, gone, tx);
    NextBeforeTx(o, req, delta);
    forall f | f in retired ensures f.tx != tx {
      RetiredRows(schema, o.table, gone, tx, f);
    }
    NothingAsserted(retired, tx);
    NothingRetracted(added, tx);
    StampedExports(o.nextRow, keys, tx);
  }

  lemma RecordKeys(schema: Schema, o: Db, req: Request, delta: Delta)
    requires Committing(schema, o, req, delta) && forall f :: f in delta.retractions ==> f.key.a !in schema.nohistory
    ensures var table, tx, keys := Committed(schema, o, req, delta).table, TxOf(o, req, delta), KeysOf(o, req, delta);
      && |keys| > 0
      && AssertedKeys(table, tx) == CarryKeys(tx, keys[1..])
      && TimeKeys(table, tx) == [keys[0]] + NoteKeys(tx, keys[1..])
      && RetractedKeys(table, tx) == KeyList(delta.retractions)
  {
    hide Committing, Committed, KeysOf;
    RecordedKeys(schema, o, req, delta);
    KeepAll(delta.retractions, Stamped(schema, Gone(delta)));
  }

  lemma {:induction false} KeepShorter<T(!new)>(s: seq<T>, keep: set<T>)
    ensures |Keep(s, keep)| <= |s| && (|Keep(s, keep)| == |s| <==> forall x :: x in s ==> x in keep)
  {
    if s != [] {
      KeepShorter(s[1..], keep);
      assert forall x :: x in s <==> x == s[0] || x in s[1..];
    }
  }

  /** Export, exactly: the record of a commit carries its whole delta if and only if the commit
      retracts nothing of a no-history attribute.  Rows of such attributes are deleted before the
      record is read off the table. */
  lemma ExportsExactly(schema: Schema, o: Db, req: Request, delta: Delta)
    requires Committing(schema, o, req, delta)
    ensures RetractedKeys(Committed(schema, o, req, delta).table, TxOf(o, req, delta)) == KeyList(delta.retractions)
       <==> forall f :: f in delta.retractions ==> f.key.a !in schema.nohistory
  {
    hide Committing, Committed;
    RecordedKeys(schema, o, req, delta);
    KeepShorter(delta.retractions, Stamped(schema, Gone(delta)));
    if forall f :: f in delta.retractions ==> f.key.a !in schema.nohistory {
      RecordKeys(schema, o, req, delta);
    }
  }

  lemma {:induction false} NothingAsserted(rows: seq<Fact>, tx: int)
    requires forall f :: f in rows ==> f.tx != tx
    ensures AssertedKeys(rows, tx) == [] && TimeKeys(rows, tx) == []
  {
    if rows != [] { NothingAsserted(rows[1..], tx); }
  }

  lemma {:induction false} NothingRetracted(rows: seq<Fact>, tx: int)
    requires forall f :: f in rows ==> f.rx.None?
    ensures RetractedKeys(rows, tx) == []
  {
    if rows != [] { NothingRetracted(rows[1..], tx); }
  }

  lemma OldRowsEarlier(o: Db)
    requires Sound(o)
    ensures forall f :: f in o.table ==> f.tx < o.next && (f.rx.Some? ==> f.rx.value < o.next)
  {
    TxsBounded(o);
    forall f | f in o.table ensures f.tx < o.next && (f.rx.Some? ==> f.rx.value < o.next) {
      assert RowOk(o, f);
    }
  }

  lemma CommittingResolved(schema: Schema, o: Db, req: Request, delta: Delta)
    requires Committing(schema, o, req, delta)
    ensures Resolved(o, req)
  {
  }

  /** The timestamp is the first new row and the only one of its kind. */
  lemma OneTimestamp(schema: Schema, o: Db, req: Request, delta: Delta)
    requires Committing(schema, o, req, delta)
    ensures var tx, keys := TxOf(o, req, delta), KeysOf(o, req, delta);
      && |keys| > 0 && keys[0] == Triple(tx, ATTR_AT, Value(TAG_INSTANT, req.at))
      && forall k :: k in keys[1..] ==> !(k.e == tx && k.a == ATTR_AT)
  {
    hide Committing, NewKeys, Prepare, Addable;
    var tx, keys := TxOf(o, req, delta), KeysOf(o, req, delta);
    CommittingResolved(schema, o, req, delta);
    hide Resolved;
    NewKeysFrom(o.next, tx, req.at, req.meta, Prepare(o, delta, req.claims));
    forall k | k in keys[1..] ensures !(k.e == tx && k.a == ATTR_AT) {
      var i :| 0 <= i < |keys[1..]| && keys[1..][i] == k;
      NewKeyAddable(schema, o, req, delta, i + 1);
      if i + 1 <= |req.meta| { OwnKeysDistinct(o, req, delta, 0, i + 1); }
    }
  }

  lemma RetractionsKept(schema: Schema, o: Db, req: Request, delta: Delta)
    requires Committing(schema, o, req, delta)
    ensures Keep(o.table, Gone(delta)) == delta.retractions
  {
    RetractionsSpareReceipts(schema, o, req, delta);
    PlanRefines(schema, LiveOf(o.table), req.ops);
    KeepById(o.table, Gone(delta));
    hide Plan, Resolved;
    ByIdUnique(Keep(o.table, Gone(delta)), delta.retractions);
  }

  // ----- reading the record -----

  function ClaimsOfSelectors(created: seq<Selector>): seq<Claim> {
    seq(|created|, i requires 0 <= i < |created| => ClaimOf(created[i]))
  }

  lemma {:induction false} PreallocateNew(index: map<Selector, int>, ids: map<int, Identity>, next: int, created: seq<Selector>)
    requires SelectorsDistinct(ids) && Finds(index, Upto(ids, next))
    requires forall i :: 0 <= i < |created| ==> IsSelector(ids, next + i, created[i])
    ensures var known := Preallocate(index, next, created);
      known.Ok? && known.value.claims == ClaimsOfSelectors(created) && Finds(known.value.index, Upto(ids, next + |created|))
  {
    hide Finds, Upto, SelectorsDistinct;
    if created != [] {
      var n := |created| - 1;
      forall i | 0 <= i < n ensures IsSelector(ids, next + i, created[..n][i]) {
        assert IsSelector(ids, next + i, created[i]);
      }
      PreallocateNew(index, ids, next, created[..n]);
      assert IsSelector(ids, next + n, created[n]);
      FindsOneMore(Preallocate(index, next, created[..n]).value.index, ids, next + n);
    }
  }

  function OffTransaction(tx: int, k: Triple): Triple {
    if k.e == tx then k.(e := 0) else k
  }

  function AllOff(tx: int, keys: seq<Triple>): seq<Triple> {
    seq(|keys|, i requires 0 <= i < |keys| => OffTransaction(tx, keys[i]))
  }

  /** A key that the record of transaction `tx` can carry. */
  ghost predicate Portable(ids: map<int, Identity>, tx: int, k: Triple) {
    (forall id :: id in Mentions(k) ==> id in ids) && k.e <= tx && k.a < tx && (k.v.tag == TAG_REF ==> k.v.cell < tx)
  }

  lemma TupleKey(index: map<Selector, int>, ids: map<int, Identity>, tx: int, uuid: Uuid, k: Triple)
    requires SelectorsDistinct(ids) && Finds(index, Upto(ids, tx)) && tx in ids && ids[tx].selector == Eid(uuid) && Portable(ids, tx, k)
    ensures KeyOf(index, uuid, ToTuple(ids, k)) == Some(OffTransaction(tx, k))
  {
    assert k.e in Mentions(k) && k.a in Mentions(k) && (k.v.tag == TAG_REF ==> k.v.cell in Mentions(k));
    var older := Upto(ids, tx);
    assert k.a in older && (k.v.tag == TAG_REF ==> k.v.cell in older) && (k.e != tx ==> k.e in older);
    if k.e != tx {
      assert ids[k.e].selector != ids[tx].selector;
    }
  }

  lemma {:induction false} TupleKeys(index: map<Selector, int>, ids: map<int, Identity>, tx: int, uuid: Uuid, keys: seq<Triple>)
    requires SelectorsDistinct(ids) && Finds(index, Upto(ids, tx)) && tx in ids && ids[tx].selector == Eid(uuid)
    requires forall k :: k in keys ==> Portable(ids, tx, k)
    ensures KeysOfTuples(index, uuid, TuplesOf(ids, keys)) == Some(AllOff(tx, keys))
  {
    if keys != [] {
      var n := |keys| - 1;
      TupleKeys(index, ids, tx, uuid, keys[..n]);
      assert TuplesOf(ids, keys)[..n] == TuplesOf(ids, keys[..n]);
      TupleKey(index, ids, tx, uuid, keys[n]);
      assert AllOff(tx, keys) == AllOff(tx, keys[..n]) + [OffTransaction(tx, keys[n])];
    }
  }

  lemma {:induction false} SplitMeta(meta: seq<Triple>, facts: seq<Triple>)
    requires (forall k :: k in meta ==> IsMeta(k)) && (forall k :: k in facts ==> !IsMeta(k))
    ensures MetaOf(meta + facts) == meta && FactsOf(meta + facts) == facts
  {
    if meta != [] {
      assert (meta + facts)[1..] == meta[1..] + facts;
      SplitMeta(meta[1..], facts);
    } else {
      assert meta + facts == facts;
      AllFacts(facts);
    }
  }

  lemma {:induction false} AllFacts(facts: seq<Triple>)
    requires forall k :: k in facts ==> !IsMeta(k)
    ensures MetaOf(facts) == [] && FactsOf(facts) == facts
  {
    if facts != [] { AllFacts(facts[1..]); }
  }

  /** The request the replica makes of the event of a commit. */
  function ReplicaRequest(schema: Schema, o: Db, r: Db, req: Request, delta: Delta, at: int): Request {
    Request(ClaimsOfSelectors(CreatedBy(Committed(schema, o, req, delta).ids, o.next, TxOf(o, req, delta))),
            ReplayOps(MovedDelta(schema, o, r, req, delta)), req.meta, true, None, None, at, req.uuid)
  }

  lemma CommitSelectors(schema: Schema, o: Db, req: Request, delta: Delta)
    requires Committing(schema, o, req, delta)
    ensures var ids, tx := Committed(schema, o, req, delta).ids, TxOf(o, req, delta);
      && SelectorsDistinct(ids) && Upto(ids, o.next) == o.ids && tx in ids && ids[tx].selector == Eid(req.uuid)
      && (forall id :: id in ids <==> id in o.ids || o.next <= id <= tx)
      && (var created := CreatedBy(ids, o.next, tx);
          |created| == tx - o.next && forall i :: 0 <= i < |created| ==> IsSelector(ids, o.next + i, created[i]))
  {
    hide Sound, Resolved, Plan, Committed, SelectorsDistinct;
    RowsKnown(o);
    CommitIdsAre(schema, o, req, delta);
    NewIdsAre(o.ids, o.next, Prepare(o, delta, req.claims).claims, req.uuid);
  }

  lemma CommitIdsAre(schema: Schema, o: Db, req: Request, delta: Delta)
    ensures var claims := Prepare(o, delta, req.claims).claims;
      && Committed(schema, o, req, delta).ids == o.ids + NewIdentities(o.next, claims, req.uuid)
      && TxOf(o, req, delta) == o.next + |claims|
  {
    KeptExactly(o.next, req.claims, MentionedBy(PlannedList(delta.assertions)));
  }

  lemma NewIdsAre(ids: map<int, Identity>, next: int, claims: seq<Claim>, uuid: Uuid)
    requires forall id :: id in ids ==> id < next
    ensures var ids', tx := ids + NewIdentities(next, claims, uuid), next + |claims|;
      && Upto(ids', next) == ids && tx in ids' && ids'[tx].selector == Eid(uuid)
      && (forall id :: id in ids' <==> id in ids || next <= id <= tx)
      && (var created := CreatedBy(ids', next, tx);
          |created| == tx - next && forall i :: 0 <= i < |created| ==> IsSelector(ids', next + i, created[i]))
  {
    var ids', tx := ids + NewIdentities(next, claims, uuid), next + |claims|;
    assert forall id :: id in NewIdentities(next, claims, uuid) <==> next <= id <= tx;
    var created := CreatedBy(ids', next, tx);
    forall i | 0 <= i < |created| ensures IsSelector(ids', next + i, created[i]) {
      assert created[i] == SelectorOf(ids', next + i);
    }
  }

  lemma NewKeyPortable(schema: Schema, o: Db, req: Request, delta: Delta, i: nat)
    requires Committing(schema, o, req, delta) && i < |KeysOf(o, req, delta)|
    ensures Portable(Committed(schema, o, req, delta).ids, TxOf(o, req, delta), KeysOf(o, req, delta)[i])
  {
    hide Sound, Plan, Committed, Upto, SelectorsDistinct, NewKeys, Kept, KeptClaims, Moved, UserPlan;
    NewKeyAddable(schema, o, req, delta, i);
    CommitSelectors(schema, o, req, delta);
    NewKeysFrom(o.next, TxOf(o, req, delta), req.at, req.meta, Prepare(o, delta, req.claims));
    if i > |req.meta| {
      var n := i - 1 - |req.meta|;
      assert i == 1 + |req.meta| + n;
      MovedShape(schema, o, req, delta, delta.assertions[n]);
    } else if i > 0 {
      assert KeysOf(o, req, delta)[1 + (i - 1)] == OnTransaction(TxOf(o, req, delta), req.meta[i - 1]);
    }
  }

  lemma OldKeyPortable(schema: Schema, o: Db, req: Request, delta: Delta, f: Fact)
    requires Committing(schema, o, req, delta) && f in o.table
    ensures Portable(Committed(schema, o, req, delta).ids, TxOf(o, req, delta), f.key) && f.key.e < TxOf(o, req, delta)
  {
    CommitSelectors(schema, o, req, delta);
    RowsKnown(o);
    assert f.key.e in Mentions(f.key) && f.key.a in Mentions(f.key) && (f.key.v.tag == TAG_REF ==> f.key.v.cell in Mentions(f.key));
  }

  /** The carried keys of the new rows, off the transaction, are the metadata and the moved assertions. */
  lemma KeysOff(schema: Schema, o: Db, req: Request, delta: Delta)
    requires Committing(schema, o, req, delta)
    ensures var tx, keys := TxOf(o, req, delta), KeysOf(o, req, delta);
      |keys| > 0 && AllOff(tx, CarryKeys(tx, keys[1..])) == req.meta + MovedList(o, req, delta)
  {
    hide Committing, AllOnTransaction, MovedList, KeysOf;
    var tx, moved := TxOf(o, req, delta), MovedList(o, req, delta);
    CarriedKeys(schema, o, req, delta);
    MovedApartFromTx(schema, o, req, delta);
    OffOn(tx, req.meta + moved);
    OnConcat(tx, req.meta, moved);
  }

  lemma CarriedKeys(schema: Schema, o: Db, req: Request, delta: Delta)
    requires Committing(schema, o, req, delta)
    ensures var tx, keys := TxOf(o, req, delta), KeysOf(o, req, delta);
      |keys| > 0 && CarryKeys(tx, keys[1..]) == AllOnTransaction(tx, req.meta) + AllOnTransaction(tx, MovedList(o, req, delta))
  {
    hide NewKeys, RenameAll, AllOnTransaction, Sound, Plan, SelectorsDistinct, MovedList, PlannedList;
    var tx, kept, list := TxOf(o, req, delta), Prepare(o, delta, req.claims).kept, delta.assertions;
    NewKeysSplit(o.next, tx, req.at, req.meta, Prepare(o, delta, req.claims));
    PreparedDelta(o, delta, req.claims);
    CarryConcat(tx, AllOnTransaction(tx, req.meta), AllOnTransaction(tx, RenameAll(o.next, kept, PlannedList(list))));
    MetaCarried(o, req, tx);
    forall p | p in list ensures NoteKept(o.next, kept, tx, p.key) {
      NoteIsImport(schema, o, req, delta, p);
    }
    MovesCarried(o.next, kept, tx, list);
    MovedListIs(o, req, delta);
  }

  lemma MetaCarried(o: Db, req: Request, tx: int)
    requires Resolved(o, req)
    ensures CarryKeys(tx, AllOnTransaction(tx, req.meta)) == AllOnTransaction(tx, req.meta)
  {
    CarryAll(tx, AllOnTransaction(tx, req.meta));
  }

  /** A key lands as an import note exactly if it was one. */
  ghost predicate NoteKept(first: int, kept: seq<int>, tx: int, k: Triple) {
    var l := OnTransaction(tx, RenameTriple(first, kept, k));
    l.e == tx && l.a == ATTR_IMPORTED <==> IsImport(k)
  }

  lemma NoteIsImport(schema: Schema, o: Db, req: Request, delta: Delta, p: Planned)
    requires Committing(schema, o, req, delta) && p in delta.assertions
    ensures NoteKept(o.next, Prepare(o, delta, req.claims).kept, TxOf(o, req, delta), p.key)
  {
    MovedShape(schema, o, req, delta, p);
    MovedImport(schema, o, req, delta, p);
  }

  lemma {:induction false} MovesCarried(first: int, kept: seq<int>, tx: int, list: seq<Planned>)
    requires forall p :: p in list ==> NoteKept(first, kept, tx, p.key)
    ensures CarryKeys(tx, AllOnTransaction(tx, RenameAll(first, kept, PlannedList(list))))
         == AllOnTransaction(tx, RenameAll(first, kept, PlannedList(Carried(list))))
  {
    if list != [] {
      MovesCarried(first, kept, tx, list[1..]);
      MovesCons(first, kept, tx, list[0], list[1..]);
      assert list == [list[0]] + list[1..] && NoteKept(first, kept, tx, list[0].key);
      var key := OnTransaction(tx, RenameTriple(first, kept, list[0].key));
      var keys := AllOnTransaction(tx, RenameAll(first, kept, PlannedList(list)));
      assert keys[0] == key && keys[1..] == AllOnTransaction(tx, RenameAll(first, kept, PlannedList(list[1..])));
      if !IsImport(list[0].key) {
        MovesCons(first, kept, tx, list[0], Carried(list[1..]));
        assert Carried(list) == [list[0]] + Carried(list[1..]);
      } else {
        assert Carried(list) == Carried(list[1..]);
      }
    }
  }

  lemma MovesCons(first: int, kept: seq<int>, tx: int, p: Planned, list: seq<Planned>)
    ensures AllOnTransaction(tx, RenameAll(first, kept, PlannedList([p] + list)))
         == [OnTransaction(tx, RenameTriple(first, kept, p.key))] + AllOnTransaction(tx, RenameAll(first, kept, PlannedList(list)))
  {
    var full, rest := AllOnTransaction(tx, RenameAll(first, kept, PlannedList([p] + list))), AllOnTransaction(tx, RenameAll(first, kept, PlannedList(list)));
    forall i | 0 <= i < |full| ensures full[i] == ([OnTransaction(tx, RenameTriple(first, kept, p.key))] + rest)[i] {
      assert PlannedList([p] + list)[i] == ([p] + list)[i].key;
      if i > 0 { assert ([p] + list)[i] == list[i - 1]; }
    }
  }

  lemma MovedApartFromTx(schema: Schema, o: Db, req: Request, delta: Delta)
    requires Committing(schema, o, req, delta)
    ensures forall k :: k in req.meta + MovedList(o, req, delta) ==> k.e != TxOf(o, req, delta)
  {
    hide Moved, Sound, Plan, SelectorsDistinct;
    assert o.next > 0 by { NextPositive(o); }
    forall k | k in MovedList(o, req, delta) ensures k.e < TxOf(o, req, delta) {
      var p := MovedFrom(o, req, delta, k);
      MovedShape(schema, o, req, delta, p);
    }
  }

  lemma MovedFrom(o: Db, req: Request, delta: Delta, k: Triple) returns (p: Planned)
    requires k in MovedList(o, req, delta)
    ensures p in delta.assertions && !IsImport(p.key) && k == Moved(o, req, delta, p.key)
  {
    var carried := Carried(delta.assertions);
    var i :| 0 <= i < |carried| && MovedList(o, req, delta)[i] == k;
    p := carried[i];
    CarriedAre(delta.assertions, p);
  }

  lemma NextPositive(o: Db)
    requires Sound(o)
    ensures o.next > 0
  {
  }

  lemma OffOn(tx: int, keys: seq<Triple>)
    requires forall k :: k in keys ==> k.e != tx
    ensures AllOff(tx, AllOnTransaction(tx, keys)) == keys
  {
  }

  lemma OnConcat(tx: int, s: seq<Triple>, t: seq<Triple>)
    ensures AllOnTransaction(tx, s + t) == AllOnTransaction(tx, s) + AllOnTransaction(tx, t)
  {
  }

  // ----- the rows the replica retracts -----

  /** The keys among `ks` of live rows, in row order. */
  function LiveKeysIn(table: seq<Fact>, ks: set<Triple>): seq<Triple> {
    if table == [] then []
    else (if table[0].rx.None? && table[0].key in ks then [table[0].key] else []) + LiveKeysIn(table[1..], ks)
  }

  lemma {:induction false} KeptLive(table: seq<Fact>, keep: set<Fact>, ks: set<Triple>)
    requires forall f :: f in table ==> (f in keep <==> f.rx.None? && f.key in ks)
    ensures KeyList(Keep(table, keep)) == LiveKeysIn(table, ks)
  {
    if table != [] {
      KeptLive(table[1..], keep, ks);
      KeyListConcat(if table[0] in keep then [table[0]] else [], Keep(table[1..], keep));
      assert table[0] in table;
    }
  }

  lemma {:induction false} LastingLive(table: seq<Fact>, ks: set<Triple>)
    requires forall f :: f in table && Local(f) ==> f.key !in ks
    ensures LiveKeysIn(Lasting(table), ks) == LiveKeysIn(table, ks)
  {
    if table != [] {
      LastingLive(table[1..], ks);
      assert table[0] in table;
      if Local(table[0]) {
        assert Lasting(table) == Lasting(table[1..]);
      } else {
        assert Lasting(table)[0] == table[0] && Lasting(table)[1..] == Lasting(table[1..]);
      }
    }
  }

  lemma {:induction false} PairedLive(s: seq<Fact>, t: seq<Fact>, ks: set<Triple>)
    requires Paired(s, t) && forall i :: 0 <= i < |s| ==> (s[i].key.e == s[i].tx ==> s[i].key !in ks && t[i].key !in ks)
    ensures LiveKeysIn(s, ks) == LiveKeysIn(t, ks)
  {
    if s != [] {
      assert SameButTime(s[0], t[0]);
      PairedLive(s[1..], t[1..], ks);
    }
  }

  lemma OwnNotRetracted(schema: Schema, o: Db, req: Request, delta: Delta, db: Db, f: Fact)
    requires Committing(schema, o, req, delta) && Sound(db) && Txs(db.events) == Txs(o.events) && f in db.table && f.key.e == f.tx
    ensures f.key !in Keys(delta.retractions)
  {
    hide Committing, Sound;
    SoundRow(db, f);
    RetractionsSpareReceipts(schema, o, req, delta);
  }

  lemma GoneByKey(schema: Schema, o: Db, req: Request, delta: Delta, f: Fact)
    requires Committing(schema, o, req, delta) && f in o.table
    ensures f in Gone(delta) <==> f.rx.None? && f.key in Keys(delta.retractions)
  {
    hide Committing, Sound;
    CommittingSound(schema, o, req, delta);
    LiveRowsOf(o);
    RetractionsSpareReceipts(schema, o, req, delta);
    if f.rx.None? && f.key in Keys(delta.retractions) {
      var g :| g in delta.retractions && g.key == f.key;
      assert f in LiveOf(o.table);
    }
  }

  /** The replica retracts rows with the same keys in the same order. */
  lemma MatchingKeys(schema: Schema, o: Db, r: Db, req: Request, delta: Delta)
    requires Committing(schema, o, req, delta) && Mirrors(o, r) && Sound(r)
    ensures KeyList(Matching(r, delta)) == KeyList(delta.retractions)
  {
    hide Committing, Sound, Gone;
    var ks, live := Keys(delta.retractions), LiveOf(r.table);
    CommittingSound(schema, o, req, delta);
    MirrorTxs(o, r);
    RetractionsKept(schema, o, req, delta);
    forall f | f in o.table ensures f in Gone(delta) <==> f.rx.None? && f.key in ks {
      GoneByKey(schema, o, req, delta, f);
    }
    KeptLive(o.table, Gone(delta), ks);
    MatchingLive(r, delta);
    forall f | f in o.table && f.key.e == f.tx ensures f.key !in ks { OwnNotRetracted(schema, o, req, delta, o, f); }
    forall f | f in r.table && f.key.e == f.tx ensures f.key !in ks { OwnNotRetracted(schema, o, req, delta, r, f); }
    LastingLive(o.table, ks);
    LastingLive(r.table, ks);
    var s, t := Lasting(o.table), Lasting(r.table);
    forall i | 0 <= i < |s| ensures s[i].key.e == s[i].tx ==> s[i].key !in ks && t[i].key !in ks {
      LastingRows(o.table, s[i]);
      LastingRows(r.table, t[i]);
      assert SameButTime(s[i], t[i]) && s[i] in s && t[i] in t;
    }
    PairedLive(s, t, ks);
  }

  lemma MatchingLive(r: Db, delta: Delta)
    ensures KeyList(Matching(r, delta)) == LiveKeysIn(r.table, Keys(delta.retractions))
  {
    var live := set f | f in r.table && f.rx.None?;
    var hit := set g | g in LiveOf(r.table) && g.key in Keys(delta.retractions);
    KeepKeep(r.table, live, hit);
    KeptLive(r.table, live * hit, Keys(delta.retractions));
  }

  lemma ReplayOpsAre(schema: Schema, o: Db, r: Db, req: Request, delta: Delta)
    requires Committing(schema, o, req, delta) && Mirrors(o, r) && Sound(r)
    ensures ReplayOps(MovedDelta(schema, o, r, req, delta))
         == Retracts(KeyList(delta.retractions)) + Asserts(MovedList(o, req, delta)) + [Assert(ImportKey(StampOf(schema, o, req, delta)))]
  {
    hide Committing, Mirrors, Sound, StampOf, Matching, Moved;
    MatchingKeys(schema, o, r, req, delta);
    var d := MovedDelta(schema, o, r, req, delta);
    assert RetractOps(d.retractions) == Retracts(KeyList(d.retractions));
    assert AssertOps(d.assertions) == Asserts(MovedList(o, req, delta)) + [Assert(ImportKey(StampOf(schema, o, req, delta)))];
  }

  lemma MovedNotMeta(schema: Schema, o: Db, req: Request, delta: Delta)
    requires Committing(schema, o, req, delta)
    ensures (forall k :: k in req.meta ==> IsMeta(k)) && (forall k :: k in MovedList(o, req, delta) ==> !IsMeta(k))
  {
    hide Moved, Sound, Plan, SelectorsDistinct, MovedList;
    forall k | k in MovedList(o, req, delta) ensures !IsMeta(k) {
      var p := MovedFrom(o, req, delta, k);
      MovedShape(schema, o, req, delta, p);
    }
  }

  /** The replica reads the delta back from the portable record. */
  lemma EventRead(schema: Schema, o: Db, r: Db, req: Request, delta: Delta, index: map<Selector, int>, at: int)
    requires Committing(schema, o, req, delta) && Mirrors(o, r) && Sound(r) && Finds(index, o.ids)
    requires forall f :: f in delta.retractions ==> f.key.a !in schema.nohistory
    ensures var o' := Committed(schema, o, req, delta);
      && |o'.events| == |o.events| + 1 && o'.events[|o.events|].payload.Some? && o'.events[|o.events|].payload.value.Changes?
      && EventRequest(o.next, index, req.uuid, o'.events[|o.events|].payload.value, at) == Ok(ReplicaRequest(schema, o, r, req, delta, at))
  {
    hide *;
    var o', tx, keys := Committed(schema, o, req, delta), TxOf(o, req, delta), KeysOf(o, req, delta);
    var gone, moved := KeyList(delta.retractions), MovedList(o, req, delta);
    NewRecord(schema, o, req, delta);
    RecordKeys(schema, o, req, delta);
    CommitSelectors(schema, o, req, delta);
    RecordPortable(schema, o, req, delta);
    KeysOff(schema, o, req, delta);
    MovedNotMeta(schema, o, req, delta);
    ReplayOpsAre(schema, o, r, req, delta);
    var created := CreatedBy(o'.ids, o.next, tx);
    NextBeforeTx(o, req, delta);
    PreallocateNew(index, o'.ids, o.next, created);
    var known := Preallocate(index, o.next, created).value;
    forall k | k in CarryKeys(tx, keys[1..]) ensures Portable(o'.ids, tx, k) {
      CarriedIn(tx, keys[1..], k);
    }
    TupleKeys(known.index, o'.ids, tx, req.uuid, CarryKeys(tx, keys[1..]));
    TupleKeys(known.index, o'.ids, tx, req.uuid, gone);
    SplitMeta(req.meta, moved);
    RequestIs(schema, o, r, req, delta, index, at);
  }

  lemma NextBeforeTx(o: Db, req: Request, delta: Delta)
    ensures o.next <= TxOf(o, req, delta)
  {
  }

  lemma RecordPortable(schema: Schema, o: Db, req: Request, delta: Delta)
    requires Committing(schema, o, req, delta)
    ensures var ids, tx, keys := Committed(schema, o, req, delta).ids, TxOf(o, req, delta), KeysOf(o, req, delta);
      && |keys| > 0 && (forall k :: k in keys[1..] ==> Portable(ids, tx, k))
      && (forall k :: k in KeyList(delta.retractions) ==> Portable(ids, tx, k))
      && AllOff(tx, KeyList(delta.retractions)) == KeyList(delta.retractions)
  {
    hide Committing, Committed, Portable, KeysOf, TxOf;
    var ids, tx, keys := Committed(schema, o, req, delta).ids, TxOf(o, req, delta), KeysOf(o, req, delta);
    var gone := KeyList(delta.retractions);
    OneTimestamp(schema, o, req, delta);
    RetractionsSpareReceipts(schema, o, req, delta);
    forall k | k in keys[1..] ensures Portable(ids, tx, k) {
      var i :| 0 <= i < |keys[1..]| && keys[1..][i] == k;
      NewKeyPortable(schema, o, req, delta, i + 1);
    }
    forall i | 0 <= i < |gone| ensures Portable(ids, tx, gone[i]) && gone[i].e < tx {
      OldKeyPortable(schema, o, req, delta, delta.retractions[i]);
    }
  }

  lemma RequestIs(schema: Schema, o: Db, r: Db, req: Request, delta: Delta, index: map<Selector, int>, at: int)
    requires |Committed(schema, o, req, delta).events| == |o.events| + 1 && o.next <= TxOf(o, req, delta)
    requires var o', tx := Committed(schema, o, req, delta), TxOf(o, req, delta);
      var created, moved, gone := CreatedBy(o'.ids, o.next, tx), MovedList(o, req, delta), KeyList(delta.retractions);
      var known := Preallocate(index, o.next, created);
      && o'.events[|o.events|].payload == Some(RecordOf(o'.ids, o'.table, o.next - 1, tx))
      && known.Ok? && known.value.claims == ClaimsOfSelectors(created)
      && KeysOfTuples(known.value.index, req.uuid, TuplesOf(o'.ids, AssertedKeys(o'.table, tx))) == Some(req.meta + moved)
      && KeysOfTuples(known.value.index, req.uuid, TuplesOf(o'.ids, RetractedKeys(o'.table, tx))) == Some(gone)
      && MetaOf(req.meta + moved) == req.meta && FactsOf(req.meta + moved) == moved
      && ReplayOps(MovedDelta(schema, o, r, req, delta)) == Retracts(gone) + Asserts(moved) + [Assert(ImportKey(StampOf(schema, o, req, delta)))]
    ensures var o' := Committed(schema, o, req, delta);
      && o'.events[|o.events|].payload.Some? && o'.events[|o.events|].payload.value.Changes?
      && EventRequest(o.next, index, req.uuid, o'.events[|o.events|].payload.value, at) == Ok(ReplicaRequest(schema, o, r, req, delta, at))
  {
    hide Committed, TxOf, MovedList, MovedDelta, ReplayOps, Preallocate, KeysOfTuples, TuplesOf, AssertedKeys, RetractedKeys, CreatedBy, TimeKeys, OriginTime;
  }

  // ----- the replica's commit -----

  lemma {:induction false} AllKept(first: int, claims: seq<Claim>, mentioned: set<int>)
    requires forall i :: 0 <= i < |claims| ==> claims[i] != Anonymous
    ensures |Kept(first, claims, mentioned)| == |claims|
  {
    if claims != [] {
      AllKept(first, claims[..|claims| - 1], mentioned);
    }
  }

  lemma ReplicaKeepsAll(r: Db, delta: Delta, created: seq<Selector>)
    ensures var prepared := Prepare(r, delta, ClaimsOfSelectors(created));
      && |prepared.kept| == |created| && prepared.claims == ClaimsOfSelectors(created)
      && RenameAll(r.next, prepared.kept, PlannedList(delta.assertions)) == PlannedList(delta.assertions)
  {
    var claims, mentioned := ClaimsOfSelectors(created), MentionedBy(PlannedList(delta.assertions));
    AllKept(r.next, claims, mentioned);
    NothingDropped(r.next, claims, mentioned, PlannedList(delta.assertions));
  }

  lemma SameIdentities(ids: map<int, Identity>, next: int, claims: seq<Claim>, uuid: Uuid)
    ensures var more := NewIdentities(next, claims, uuid);
      var created := CreatedBy(ids + more, next, next + |claims|);
      |created| == |claims| && NewIdentities(next, ClaimsOfSelectors(created), uuid) == more
  {
    var more := NewIdentities(next, claims, uuid);
    var created := CreatedBy(ids + more, next, next + |claims|);
    var again := NewIdentities(next, ClaimsOfSelectors(created), uuid);
    forall id | next <= id <= next + |claims| ensures again[id] == more[id] {
      if id < next + |claims| {
        assert created[id - next] == SelectorOf(ids + more, next + (id - next)) == more[id].selector;
      }
    }
  }

  function ReplicaDelta(schema: Schema, o: Db, r: Db, req: Request, delta: Delta): Delta {
    Renumbered(MovedDelta(schema, o, r, req, delta))
  }

  lemma ReplicaDeltaIs(schema: Schema, o: Db, r: Db, req: Request, delta: Delta)
    ensures ReplicaDelta(schema, o, r, req, delta).retractions == Matching(r, delta)
    ensures PlannedList(ReplicaDelta(schema, o, r, req, delta).assertions) == MovedList(o, req, delta) + [ImportKey(StampOf(schema, o, req, delta))]
  {
    hide StampOf, Moved, Matching;
    var d := ReplicaDelta(schema, o, r, req, delta);
    assert |d.assertions| == |MovedList(o, req, delta)| + 1;
  }

  /** The replica's commit takes the same ids, under the same selectors, and the same transaction. */
  lemma ReplicaIds(schema: Schema, o: Db, r: Db, req: Request, delta: Delta, at: int)
    requires Mirrors(o, r)
    ensures var rq, d := ReplicaRequest(schema, o, r, req, delta, at), ReplicaDelta(schema, o, r, req, delta);
      && TxOf(r, rq, d) == TxOf(o, req, delta)
      && NewIdentities(r.next, Prepare(r, d, rq.claims).claims, rq.uuid) == NewIdentities(o.next, Prepare(o, delta, req.claims).claims, req.uuid)
  {
    hide Committed, ReplicaDelta, Mirrors;
    var ids, tx := Committed(schema, o, req, delta).ids, TxOf(o, req, delta);
    var created := CreatedBy(ids, o.next, tx);
    MirrorNext(o, r);
    CommitIdsAre(schema, o, req, delta);
    ReplicaKeepsAll(r, ReplicaDelta(schema, o, r, req, delta), created);
    SameIdentities(o.ids, o.next, Prepare(o, delta, req.claims).claims, req.uuid);
  }

  lemma MovedListIs(o: Db, req: Request, delta: Delta)
    ensures MovedList(o, req, delta) == RenameAll(o.next, Prepare(o, delta, req.claims).kept, PlannedList(Carried(delta.assertions)))
  {
  }

  lemma NewKeysSplit(first: int, tx: int, at: int, meta: seq<Triple>, prepared: Prepared)
    ensures var keys := NewKeys(first, tx, at, meta, prepared);
      && |keys| > 0 && keys[0] == Triple(tx, ATTR_AT, Value(TAG_INSTANT, at))
      && keys[1..] == AllOnTransaction(tx, meta)
        + AllOnTransaction(tx, RenameAll(first, prepared.kept, PlannedList(prepared.delta.assertions)))
  {
    hide AllOnTransaction, RenameAll, PlannedList;
  }

  lemma ReplicaRequestIs(schema: Schema, o: Db, r: Db, req: Request, delta: Delta, at: int)
    ensures var rq := ReplicaRequest(schema, o, r, req, delta, at);
      && rq.claims == ClaimsOfSelectors(CreatedBy(Committed(schema, o, req, delta).ids, o.next, TxOf(o, req, delta)))
      && rq.meta == req.meta && rq.at == at && rq.uuid == req.uuid
  {
  }

  lemma PreparedDelta(db: Db, delta: Delta, claims: seq<Claim>)
    ensures Prepare(db, delta, claims).delta == delta
  {
  }

  /** The replica's new rows: its timestamp, what the origin's record carries, and the import note. */
  lemma ReplicaKeys(schema: Schema, o: Db, r: Db, req: Request, delta: Delta, at: int)
    requires Committing(schema, o, req, delta) && Mirrors(o, r)
    ensures var rq, d, tx := ReplicaRequest(schema, o, r, req, delta, at), ReplicaDelta(schema, o, r, req, delta), TxOf(o, req, delta);
      var keys, keys' := KeysOf(o, req, delta), KeysOf(r, rq, d);
      && |keys'| > 0 && |keys| > 0 && keys'[0] == Triple(tx, ATTR_AT, Value(TAG_INSTANT, at))
      && keys[0] == Triple(tx, ATTR_AT, Value(TAG_INSTANT, req.at))
      && CarryKeys(tx, keys'[1..]) == CarryKeys(tx, keys[1..])
      && NoteKeys(tx, keys'[1..]) == [Triple(tx, ATTR_IMPORTED, Value(TAG_INSTANT, StampOf(schema, o, req, delta)))]
  {
    hide Committing, Committed, Mirrors, MovedList, ReplicaDelta, ReplicaRequest, NewKeys, RenameAll, PlannedList, AllOnTransaction, Prepare, StampOf;
    var rq, d, tx := ReplicaRequest(schema, o, r, req, delta, at), ReplicaDelta(schema, o, r, req, delta), TxOf(o, req, delta);
    ReplicaIds(schema, o, r, req, delta, at);
    MirrorNext(o, r);
    ReplicaDeltaIs(schema, o, r, req, delta);
    ReplicaRequestIs(schema, o, r, req, delta, at);
    ReplicaKeepsAll(r, d, CreatedBy(Committed(schema, o, req, delta).ids, o.next, tx));
    PreparedDelta(r, d, rq.claims);
    NewKeysSplit(o.next, tx, req.at, req.meta, Prepare(o, delta, req.claims));
    NewKeysSplit(r.next, tx, at, req.meta, Prepare(r, d, rq.claims));
    var moved, note := MovedList(o, req, delta), ImportKey(StampOf(schema, o, req, delta));
    CarriedKeys(schema, o, req, delta);
    OnConcat(tx, moved, [note]);
    NoteOn(tx, StampOf(schema, o, req, delta));
    var meta, facts := AllOnTransaction(tx, req.meta), AllOnTransaction(tx, moved);
    assert KeysOf(r, rq, d)[1..] == meta + (facts + [Triple(tx, ATTR_IMPORTED, note.v)]);
    CarryConcat(tx, meta, facts + [Triple(tx, ATTR_IMPORTED, note.v)]);
    CarryConcat(tx, facts, [Triple(tx, ATTR_IMPORTED, note.v)]);
    NotesConcat(tx, meta, facts + [Triple(tx, ATTR_IMPORTED, note.v)]);
    NotesConcat(tx, facts, [Triple(tx, ATTR_IMPORTED, note.v)]);
    OneNote(tx, Triple(tx, ATTR_IMPORTED, note.v));
    NoNotes(schema, o, req, delta);
  }

  lemma NoteOn(tx: int, at: int)
    ensures AllOnTransaction(tx, [ImportKey(at)]) == [Triple(tx, ATTR_IMPORTED, Value(TAG_INSTANT, at))]
  {
  }

  lemma OneNote(tx: int, k: Triple)
    requires k.e == tx && k.a == ATTR_IMPORTED
    ensures CarryKeys(tx, [k]) == [] && NoteKeys(tx, [k]) == [k]
  {
    assert [k][1..] == [];
  }

  /** Neither the metadata nor the carried assertions hold an import note. */
  lemma NoNotes(schema: Schema, o: Db, req: Request, delta: Delta)
    requires Committing(schema, o, req, delta)
    ensures var tx := TxOf(o, req, delta);
      var meta, facts := AllOnTransaction(tx, req.meta), AllOnTransaction(tx, MovedList(o, req, delta));
      && CarryKeys(tx, meta) == meta && NoteKeys(tx, meta) == [] && CarryKeys(tx, facts) == facts && NoteKeys(tx, facts) == []
  {
    hide Plan, Sound, SelectorsDistinct, MovedList, Moved;
    var tx, moved := TxOf(o, req, delta), MovedList(o, req, delta);
    CarryAll(tx, AllOnTransaction(tx, req.meta));
    forall i | 0 <= i < |moved| ensures !(OnTransaction(tx, moved[i]).e == tx && moved[i].a == ATTR_IMPORTED) {
      var p := MovedFrom(o, req, delta, moved[i]);
      MovedShape(schema, o, req, delta, p);
      MovedImport(schema, o, req, delta, p);
    }
    CarryAll(tx, AllOnTransaction(tx, moved));
  }

  lemma MirrorNext(o: Db, r: Db)
    requires Mirrors(o, r)
    ensures r.next == o.next && r.ids == o.ids
  {
  }

  // ----- the replica's request is one callers may make -----

  lemma ReplayOpIs(schema: Schema, o: Db, r: Db, req: Request, delta: Delta, op: Op) returns (p: Planned, f: Fact)
    requires op in ReplayOps(MovedDelta(schema, o, r, req, delta))
    ensures op == Assert(ImportKey(StampOf(schema, o, req, delta)))
      || (op.Assert? && p in delta.assertions && op.key == Moved(o, req, delta, p.key))
      || (op.Retract? && f in delta.retractions && op.e == f.key.e)
  {
    hide StampOf, Moved;
    var d := MovedDelta(schema, o, r, req, delta);
    var i :| 0 <= i < |ReplayOps(d)| && ReplayOps(d)[i] == op;
    if i < |d.retractions| {
      var g := d.retractions[i];
      assert op == RetractOps(d.retractions)[i] && g in d.retractions;
      f :| f in delta.retractions && f.key == g.key;
      p := Planned(f.key, 0);
    } else {
      var j := i - |d.retractions|;
      assert op == AssertOps(d.assertions)[j] && d.assertions[j] in d.assertions;
      p := MovedAt(schema, o, r, req, delta, op.key);
      f := Fact(0, p.key, 0, None);
    }
  }

  lemma ReplicaUserPlan(schema: Schema, o: Db, r: Db, req: Request, delta: Delta, op: Op)
    requires Committing(schema, o, req, delta) && Mirrors(o, r) && Sound(r) && op in ReplayOps(MovedDelta(schema, o, r, req, delta))
    ensures op.Assert? ==> op.key.e == 0 || Writable(LiveOf(r.table), op.key.e)
    ensures op.Retract? ==> Writable(LiveOf(r.table), op.e)
    ensures op.Assert? ==>
      var k := op.key;
      && (k.e == 0 || k.e in r.ids || r.next <= k.e < TxOf(o, req, delta)) && (k.e == 0 ==> !ReservedMeta(k.a))
      && (k.a in r.ids || r.next <= k.a < TxOf(o, req, delta)) && (k.a == ATTR_IMPORTED ==> k.v.tag == TAG_INSTANT)
      && (k.v.tag == TAG_REF ==> k.v.cell in r.ids || r.next <= k.v.cell < TxOf(o, req, delta))
  {
    hide Committing, Mirrors, Sound, Moved, StampOf, MovedDelta, TxOf, LiveOf;
    var p, f := ReplayOpIs(schema, o, r, req, delta, op);
    ReceiptsAreTxs(r);
    MirrorTxs(o, r);
    MirrorNext(o, r);
    SystemKnown(r);
    if op.Assert? {
      if op.key != ImportKey(StampOf(schema, o, req, delta)) {
        MovedShape(schema, o, req, delta, p);
        MovedMentions(schema, o, req, delta, p);
        MovedImport(schema, o, req, delta, p);
      }
    } else {
      RetractedEntity(schema, o, req, delta, f);
    }
  }

  lemma SystemKnown(db: Db)
    requires Sound(db)
    ensures ATTR_IMPORTED in db.ids
  {
  }

  lemma MovedMentions(schema: Schema, o: Db, req: Request, delta: Delta, p: Planned)
    requires Committing(schema, o, req, delta) && p in delta.assertions
    ensures var k, tx := Moved(o, req, delta, p.key), TxOf(o, req, delta);
      && (k.e == 0 || k.e in o.ids || o.next <= k.e < tx)
      && (k.a in o.ids || o.next <= k.a < tx)
      && (k.v.tag == TAG_REF ==> k.v.cell in o.ids || o.next <= k.v.cell < tx)
  {
    MovedShape(schema, o, req, delta, p);
    var k := Moved(o, req, delta, p.key);
    assert k.e in Mentions(k) && k.a in Mentions(k) && (k.v.tag == TAG_REF ==> k.v.cell in Mentions(k));
    MovedReference(schema, o, req, delta, p);
  }

  lemma MovedReference(schema: Schema, o: Db, req: Request, delta: Delta, p: Planned)
    requires Committing(schema, o, req, delta) && p in delta.assertions
    ensures var k := Moved(o, req, delta, p.key); k.v.tag == TAG_REF ==> k.v.cell != 0
  {
    var mentioned := MentionedBy(PlannedList(delta.assertions));
    AssertionsSettled(schema, o, req, delta);
    RenameExactly(o.next, req.claims, mentioned);
    NextAboveGenesis(o);
    RowsKnown(o);
    assert Assert(p.key) in req.ops;
    assert p.key.v.tag == TAG_REF ==> Reachable(o, req, p.key.v.cell);
    IdsPositive(o);
  }

  lemma IdsPositive(o: Db)
    requires Sound(o)
    ensures 0 !in o.ids
  {
  }

  lemma RetractedEntity(schema: Schema, o: Db, req: Request, delta: Delta, f: Fact)
    requires Committing(schema, o, req, delta) && f in delta.retractions
    ensures f.key.e > GENESIS_TX && f.key.e !in Txs(o.events)
  {
    RetractionsSpareReceipts(schema, o, req, delta);
    EntitiesPositive(o);
    assert f.key in Keys(LiveOf(o.table));
    GenesisSpared(schema, o, req, delta, f);
  }

  lemma ReplicaResolved(schema: Schema, o: Db, r: Db, req: Request, delta: Delta, at: int)
    requires Committing(schema, o, req, delta) && Mirrors(o, r) && Sound(r)
    ensures Resolved(r, ReplicaRequest(schema, o, r, req, delta, at))
  {
    hide Committing, Committed, Sound, Mirrors, Moved, ReplayOps, MovedDelta, CreatedBy, Upto, SelectorsDistinct, OpOk;
    var rq := ReplicaRequest(schema, o, r, req, delta, at);
    CommitSelectors(schema, o, req, delta);
    MirrorNext(o, r);
    MetaResolved(schema, o, req, delta);
    forall op | op in rq.ops ensures OpOk(r, rq, op) {
      ReplicaOpOk(schema, o, r, req, delta, rq, op);
    }
    ResolvedFrom(r, rq);
  }

  ghost predicate OpOk(db: Db, req: Request, op: Op) {
    match op
    case Missing => true
    case Retract(e, _, _) => Writable(LiveOf(db.table), e)
    case Assert(k) =>
      && (k.e == 0 || (Writable(LiveOf(db.table), k.e) && Reachable(db, req, k.e))) && (k.e == 0 ==> !ReservedMeta(k.a))
      && (k.a == ATTR_IMPORTED ==> k.v.tag == TAG_INSTANT)
      && Reachable(db, req, k.a) && (k.v.tag == TAG_REF ==> Reachable(db, req, k.v.cell))
  }

  lemma ResolvedFrom(db: Db, req: Request)
    requires forall op :: op in req.ops ==> OpOk(db, req, op)
    requires forall i :: 0 <= i < |req.meta| ==>
      && req.meta[i].e == 0 && ReservedMeta(req.meta[i].a) && req.meta[i].a != ATTR_AT
      && req.meta[i].a in db.ids && req.meta[i].v.tag != TAG_REF
    requires forall i, j :: 0 <= i < j < |req.meta| ==> req.meta[i].a != req.meta[j].a
    ensures Resolved(db, req)
  {
    hide Writable, Reachable;
    assert forall op :: op in req.ops ==> OpOk(db, req, op);
  }

  lemma ReplicaOpOk(schema: Schema, o: Db, r: Db, req: Request, delta: Delta, rq: Request, op: Op)
    requires Committing(schema, o, req, delta) && Mirrors(o, r) && Sound(r) && op in ReplayOps(MovedDelta(schema, o, r, req, delta))
    requires r.next + |rq.claims| == TxOf(o, req, delta)
    ensures OpOk(r, rq, op)
  {
    hide Committing, Mirrors, Sound, ReplayOps, MovedDelta, TxOf, LiveOf;
    ReplicaUserPlan(schema, o, r, req, delta, op);
  }

  lemma MetaResolved(schema: Schema, o: Db, req: Request, delta: Delta)
    requires Committing(schema, o, req, delta)
    ensures forall i :: 0 <= i < |req.meta| ==>
      && req.meta[i].e == 0 && ReservedMeta(req.meta[i].a) && req.meta[i].a != ATTR_AT
      && req.meta[i].a in o.ids && req.meta[i].v.tag != TAG_REF
    ensures forall i, j :: 0 <= i < j < |req.meta| ==> req.meta[i].a != req.meta[j].a
  {
  }

  /** The replica commits the event. */
  lemma ReplicaCommits(schema: Schema, o: Db, r: Db, req: Request, delta: Delta, at: int)
    requires Committing(schema, o, req, delta) && Mirrors(o, r) && Sound(r) && SchemaFits(schema, o.next)
    requires ValuesFree(schema, LiveOf(o.table), delta)
    ensures Committing(schema, r, ReplicaRequest(schema, o, r, req, delta, at), ReplicaDelta(schema, o, r, req, delta))
  {
    hide Sound, Resolved, Plan, Mirrors, ReplayOps, MovedDelta, SelectorsDistinct;
    ReplicaPlans(schema, o, r, req, delta);
    ReplicaResolved(schema, o, r, req, delta, at);
    ReplicaIds(schema, o, r, req, delta, at);
    MirrorNext(o, r);
  }

  // ----- the replica mirrors the origin afterwards -----

  lemma PairedConcat(s: seq<Fact>, t: seq<Fact>, s': seq<Fact>, t': seq<Fact>)
    requires Paired(s, t) && Paired(s', t')
    ensures Paired(s + s', t + t')
  {
  }

  lemma {:induction false} LastingConcat(s: seq<Fact>, t: seq<Fact>)
    ensures Lasting(s + t) == Lasting(s) + Lasting(t)
  {
    if s == [] {
      assert s + t == t;
    } else {
      assert (s + t)[0] == s[0] && (s + t)[1..] == s[1..] + t;
      LastingConcat(s[1..], t);
    }
  }

  lemma {:induction false} LastingRetired(schema: Schema, table: seq<Fact>, gone: set<Fact>, tx: int)
    ensures Lasting(Retired(schema, table, gone, tx)) == Retired(schema, Lasting(table), gone, tx)
  {
    if table != [] {
      var row := RetireRow(schema, table[0], gone, tx);
      LastingRetired(schema, table[1..], gone, tx);
      LastingConcat(row, Retired(schema, table[1..], gone, tx));
      LastingOne(row);
      if Local(table[0]) {
        assert Lasting(table) == Lasting(table[1..]);
      } else {
        assert Lasting(table)[0] == table[0] && Lasting(table)[1..] == Lasting(table[1..]);
      }
    }
  }

  lemma LastingOne(rows: seq<Fact>)
    requires |rows| <= 1
    ensures Lasting(rows) == if rows != [] && Local(rows[0]) then [] else rows
  {
    if rows != [] { assert rows[1..] == [] && rows == [rows[0]]; }
  }

  lemma {:induction false} RetiredPaired(schema: Schema, s: seq<Fact>, t: seq<Fact>, gone: set<Fact>, gone': set<Fact>, tx: int)
    requires Paired(s, t) && forall i :: 0 <= i < |s| ==> (s[i] in gone <==> t[i] in gone')
    ensures Paired(Retired(schema, s, gone, tx), Retired(schema, t, gone', tx))
  {
    if s != [] {
      RetiredPaired(schema, s[1..], t[1..], gone, gone', tx);
      assert SameButTime(s[0], t[0]);
      PairedConcat(RetireRow(schema, s[0], gone, tx), RetireRow(schema, t[0], gone', tx),
                   Retired(schema, s[1..], gone, tx), Retired(schema, t[1..], gone', tx));
    }
  }

  lemma {:induction false} LastingFresh(next: nat, keys: seq<Triple>, tx: int)
    ensures KeyList(Lasting(Fresh(next, keys, tx))) == CarryKeys(tx, keys)
    ensures forall f :: f in Lasting(Fresh(next, keys, tx)) ==> f.tx == tx && f.rx.None?
    decreases |keys|
  {
    if keys != [] {
      FreshCons(next, keys, tx);
      LastingFresh(next + 1, keys[1..], tx);
      var head, rest := Fact(next, keys[0], tx, None), Fresh(next + 1, keys[1..], tx);
      LastingConcat([head], rest);
      LastingOne([head]);
      KeyListConcat(Lasting([head]), Lasting(rest));
      assert KeyList([head]) == [keys[0]];
    }
  }

  lemma KeysPaired(s: seq<Fact>, t: seq<Fact>, tx: int)
    requires KeyList(s) == KeyList(t) && (forall f :: f in s || f in t ==> f.tx == tx && f.rx.None?)
    ensures Paired(s, t)
  {
    assert |s| == |KeyList(s)| == |KeyList(t)| == |t|;
    forall i | 0 <= i < |s| ensures SameButTime(s[i], t[i]) {
      assert s[i].key == KeyList(s)[i] && t[i].key == KeyList(t)[i] && s[i] in s && t[i] in t;
    }
  }

  lemma FreshPaired(next: nat, next': nat, keys: seq<Triple>, keys': seq<Triple>, tx: int)
    requires |keys| > 0 && |keys'| > 0 && keys[0].e == keys'[0].e == tx && keys[0].a == keys'[0].a == ATTR_AT
    requires CarryKeys(tx, keys[1..]) == CarryKeys(tx, keys'[1..])
    ensures Paired(Lasting(Fresh(next, keys, tx)), Lasting(Fresh(next', keys', tx)))
  {
    hide Lasting, CarryKeys;
    var rest, rest' := Fresh(next + 1, keys[1..], tx), Fresh(next' + 1, keys'[1..], tx);
    var head, head' := Fact(next, keys[0], tx, None), Fact(next', keys'[0], tx, None);
    FreshCons(next, keys, tx);
    FreshCons(next', keys', tx);
    LastingConcat([head], rest);
    LastingConcat([head'], rest');
    LastingOne([head]);
    LastingOne([head']);
    LastingFresh(next + 1, keys[1..], tx);
    LastingFresh(next' + 1, keys'[1..], tx);
    KeysPaired(Lasting(rest), Lasting(rest'), tx);
    PairedConcat([head], [head'], Lasting(rest), Lasting(rest'));
  }

  lemma GonePaired(schema: Schema, o: Db, r: Db, req: Request, delta: Delta, f: Fact, g: Fact)
    requires Committing(schema, o, req, delta) && Mirrors(o, r) && Sound(r) && f in o.table && g in r.table && SameButTime(f, g)
    ensures f in Gone(delta) <==> g in Matching(r, delta)
  {
    hide Committing, Mirrors, Sound, Gone;
    GoneByKey(schema, o, req, delta, f);
    MirrorTxs(o, r);
    CommittingSound(schema, o, req, delta);
    if f.key.e == f.tx {
      OwnNotRetracted(schema, o, req, delta, o, f);
      OwnNotRetracted(schema, o, req, delta, r, g);
    }
  }

  lemma ReplicaTable(schema: Schema, o: Db, r: Db, req: Request, delta: Delta, at: int)
    requires Committing(schema, o, req, delta) && Mirrors(o, r) && Sound(r)
    ensures var rq, d := ReplicaRequest(schema, o, r, req, delta, at), ReplicaDelta(schema, o, r, req, delta);
      Paired(Lasting(Committed(schema, o, req, delta).table), Lasting(Committed(schema, r, rq, d).table))
  {
    hide Committing, Committed, Mirrors, Sound, ReplicaRequest, ReplicaDelta, KeysOf, TxOf, Lasting, Paired, Gone, StampOf, Matching, Retired, Fresh, CarryKeys, NoteKeys;
    var rq, d, tx := ReplicaRequest(schema, o, r, req, delta, at), ReplicaDelta(schema, o, r, req, delta), TxOf(o, req, delta);
    var keys, keys' := KeysOf(o, req, delta), KeysOf(r, rq, d);
    CommitParts(schema, o, req, delta);
    CommitParts(schema, r, rq, d);
    ReplicaIds(schema, o, r, req, delta, at);
    ReplicaKeys(schema, o, r, req, delta, at);
    ReplicaDeltaIs(schema, o, r, req, delta);
    RetiredMirror(schema, o, r, req, delta, d, tx);
    FreshPaired(o.nextRow, r.nextRow, keys, keys', tx);
    LastingConcat(Retired(schema, o.table, Gone(delta), tx), Fresh(o.nextRow, keys, tx));
    LastingConcat(Retired(schema, r.table, Gone(d), tx), Fresh(r.nextRow, keys', tx));
    PairedConcat(Lasting(Retired(schema, o.table, Gone(delta), tx)), Lasting(Retired(schema, r.table, Gone(d), tx)),
                 Lasting(Fresh(o.nextRow, keys, tx)), Lasting(Fresh(r.nextRow, keys', tx)));
  }

  lemma RetiredMirror(schema: Schema, o: Db, r: Db, req: Request, delta: Delta, d: Delta, tx: int)
    requires Committing(schema, o, req, delta) && Mirrors(o, r) && Sound(r) && d.retractions == Matching(r, delta)
    ensures Paired(Lasting(Retired(schema, o.table, Gone(delta), tx)), Lasting(Retired(schema, r.table, Gone(d), tx)))
  {
    hide Committing, Sound, Lasting, Matching;
    var s, t := Lasting(o.table), Lasting(r.table);
    forall i | 0 <= i < |s| ensures s[i] in Gone(delta) <==> t[i] in Gone(d) {
      LastingRows(o.table, s[i]);
      LastingRows(r.table, t[i]);
      assert s[i] in s && t[i] in t && SameButTime(s[i], t[i]);
      GonePaired(schema, o, r, req, delta, s[i], t[i]);
    }
    RetiredPaired(schema, s, t, Gone(delta), Gone(d), tx);
    LastingRetired(schema, o.table, Gone(delta), tx);
    LastingRetired(schema, r.table, Gone(d), tx);
  }

  lemma ReplicaRecord(schema: Schema, o: Db, r: Db, req: Request, delta: Delta, at: int)
    requires Committing(schema, o, req, delta) && Mirrors(o, r) && Sound(r)
    requires Committing(schema, r, ReplicaRequest(schema, o, r, req, delta, at), ReplicaDelta(schema, o, r, req, delta))
    requires forall f :: f in delta.retractions ==> f.key.a !in schema.nohistory
    ensures var o', r' := Committed(schema, o, req, delta), Committed(schema, r, ReplicaRequest(schema, o, r, req, delta, at), ReplicaDelta(schema, o, r, req, delta));
      && r'.ids == o'.ids && |o'.events| == |o.events| + 1 && |r'.events| == |r.events| + 1
      && SameEvent(o'.events[|o.events|], r'.events[|r.events|])
  {
    hide *;
    var rq, d := ReplicaRequest(schema, o, r, req, delta, at), ReplicaDelta(schema, o, r, req, delta);
    var o', r', tx := Committed(schema, o, req, delta), Committed(schema, r, rq, d), TxOf(o, req, delta);
    MirrorNext(o, r);
    ReplicaDeltaIs(schema, o, r, req, delta);
    ReplicaIds(schema, o, r, req, delta, at);
    ReplicaKeys(schema, o, r, req, delta, at);
    CommitIdsAre(schema, o, req, delta);
    CommitIdsAre(schema, r, rq, d);
    CommitParts(schema, o, req, delta);
    CommitParts(schema, r, rq, d);
    NewRecord(schema, o, req, delta);
    NewRecord(schema, r, rq, d);
    RecordKeys(schema, o, req, delta);
    HistoryKept(schema, r, delta);
    RecordKeys(schema, r, rq, d);
    MatchingKeys(schema, o, r, req, delta);
    ReplicaRequestIs(schema, o, r, req, delta, at);
    NextBeforeTx(o, req, delta);
    StampCarried(KeysOf(r, rq, d)[0], tx, StampOf(schema, o, req, delta));
    StampIs(schema, o, req, delta);
    SameRecordOf(o', r', o.next - 1, tx);
    assert r'.events[|r.events|].payload == Some(RecordOf(r'.ids, r'.table, o.next - 1, tx));
    SameEventOf(o'.events[|o.events|], r'.events[|r.events|]);
  }

  lemma SameEventOf(e: Event, f: Event)
    requires e.tx == f.tx && e.uuid == f.uuid && e.payload == f.payload && e.payload.Some? && Sealed(e) && Sealed(f)
    ensures SameEvent(e, f)
  {
  }

  lemma HistoryKept(schema: Schema, r: Db, delta: Delta)
    requires forall f :: f in delta.retractions ==> f.key.a !in schema.nohistory
    ensures forall f :: f in Matching(r, delta) ==> f.key.a !in schema.nohistory
  {
  }

  lemma StampIs(schema: Schema, o: Db, req: Request, delta: Delta)
    ensures StampOf(schema, o, req, delta) == OriginTime(TimeKeys(Committed(schema, o, req, delta).table, TxOf(o, req, delta)))
  {
  }

  /** An import note outweighs the replica's own timestamp. */
  lemma StampCarried(own: Triple, tx: int, at: int)
    ensures OriginTime([own] + [Triple(tx, ATTR_IMPORTED, Value(TAG_INSTANT, at))]) == at
  {
    var keys := [own] + [Triple(tx, ATTR_IMPORTED, Value(TAG_INSTANT, at))];
    assert keys[|keys| - 1].a == ATTR_IMPORTED;
    assert LastCell(keys, ATTR_IMPORTED) == Some(at);
  }

  lemma SameRecordOf(o: Db, r: Db, before: int, tx: int)
    requires before < tx && r.ids == o.ids && AssertedKeys(r.table, tx) == AssertedKeys(o.table, tx)
    requires RetractedKeys(r.table, tx) == RetractedKeys(o.table, tx)
    requires OriginTime(TimeKeys(r.table, tx)) == OriginTime(TimeKeys(o.table, tx))
    ensures RecordOf(r.ids, r.table, before, tx) == RecordOf(o.ids, o.table, before, tx)
  {
  }

  /** Replication of one event: a replica that mirrors its origin commits the origin's event from
      its portable record alone, re-exports the same record, and mirrors the origin again. */
  lemma ReplicaFollows(schema: Schema, o: Db, r: Db, req: Request, delta: Delta, at: int)
    requires Committing(schema, o, req, delta) && Mirrors(o, r) && Sound(r) && SchemaFits(schema, o.next)
    requires ValuesFree(schema, LiveOf(o.table), delta) && forall f :: f in delta.retractions ==> f.key.a !in schema.nohistory
    ensures var rq, d := ReplicaRequest(schema, o, r, req, delta, at), ReplicaDelta(schema, o, r, req, delta);
      Committing(schema, r, rq, d) && Mirrors(Committed(schema, o, req, delta), Committed(schema, r, rq, d))
  {
    hide Committing, Committed, ReplicaRequest, ReplicaDelta, Paired, Lasting, Sound, ValuesFree, SchemaFits, KeysOf, TxOf;
    var rq, d := ReplicaRequest(schema, o, r, req, delta, at), ReplicaDelta(schema, o, r, req, delta);
    var o', r' := Committed(schema, o, req, delta), Committed(schema, r, rq, d);
    ReplicaCommits(schema, o, r, req, delta, at);
    ReplicaTable(schema, o, r, req, delta, at);
    ReplicaRecord(schema, o, r, req, delta, at);
    ReplicaIds(schema, o, r, req, delta, at);
    CommitParts(schema, o, req, delta);
    CommitParts(schema, r, rq, d);
    forall i | 0 <= i < |o'.events| ensures SameEvent(o'.events[i], r'.events[i]) {
      if i < |o.events| {
        assert o'.events[i] == o'.events[..|o.events|][i] && r'.events[i] == r'.events[..|r.events|][i];
        assert SameEvent(o.events[i], r.events[i]);
      }
    }
  }

  // ----- streams -----

  /** Applies an event as a replica does.  A known event id answers with its receipt, provided the
      record is the same; any other event is read off its record and committed, provided the commit
      exports the same record again. */
  function ApplyEvent(schema: Schema, r: Db, index: map<Selector, int>, ev: Event, at: int): (Db, Reply) {
    if ev.payload.None? || ev.payload.value.Redaction? then (r, Failed(Unsupported))
    else if Eid(ev.uuid) in index then
      var known := index[Eid(ev.uuid)];
      if exists prior :: prior in r.events && prior.tx == known && prior.hash == ev.payload.value then
        (r, AlreadyApplied(known, BasisBefore(r.events, known)))
      else (r, Failed(Conflict))
    else
      match EventRequest(r.next, index, ev.uuid, ev.payload.value, at)
      case Err(e) => (r, Failed(e))
      case Ok(req) =>
        var (r', reply) := Transact(schema, r, req);
        if reply.Applied? && (r'.events == [] || r'.events[|r'.events| - 1].payload != ev.payload) then (r, Failed(Conflict))
        else (r', reply)
  }

  /** A delivery on any sound store.  An applied one adds one event: with the received id and
      record, which is also the record of the rows now in the store.  Every other reply leaves the
      store as it was. */
  lemma ApplyExactly(schema: Schema, r: Db, index: map<Selector, int>, ev: Event, at: int)
    requires Sound(r) && Finds(index, r.ids)
    ensures var (r', reply) := ApplyEvent(schema, r, index, ev, at);
      if reply.Applied? then
        && r.next <= reply.tx < MAX_ID && reply.basis == Basis(r.events)
        && ev.payload.Some? && ev.payload.value.Changes?
        && (forall prior :: prior in r.events ==> prior.uuid != ev.uuid)
        && r'.events == r.events + [Event(reply.tx, ev.uuid, ev.payload, None, ev.payload.value)]
        && ev.payload.value.at == OriginTime(TimeKeys(r'.table, reply.tx))
        && ev.payload.value.created == CreatedBy(r'.ids, r.next, reply.tx)
        && ev.payload.value.asserted == ToTuples(r'.ids, AssertedBy(r'.table, reply.tx))
        && ev.payload.value.retracted == ToTuples(r'.ids, RetractedBy(r'.table, reply.tx))
      else
        r' == r && !reply.Unchanged?
    ensures ev.payload.None? || ev.payload.value.Redaction? ==> ApplyEvent(schema, r, index, ev, at) == (r, Failed(Unsupported))
  {
    hide Transact, Preallocate, TimeKeys, OriginTime, CreatedBy, ToTuples, AssertedBy, RetractedBy;
    RegisteredEvents(r, index, ev.uuid);
    if ev.payload.Some? && ev.payload.value.Changes? {
      var req := EventRequest(r.next, index, ev.uuid, ev.payload.value, at);
      if req.Ok? { ForcedTransact(schema, r, req.value); }
    }
  }

  /** A forced request without guard or operation id fails, or commits one event with its record. */
  lemma ForcedTransact(schema: Schema, db: Db, req: Request)
    requires req.force && req.guard.None? && req.operation.None?
    ensures var (db', reply) := Transact(schema, db, req);
      || (reply.Failed? && db' == db)
      || (&& reply.Applied? && db.next <= reply.tx < MAX_ID && reply.basis == Basis(db.events)
          && |db'.events| == |db.events| + 1 && db'.events[..|db.events|] == db.events
          && var ev := db'.events[|db.events|];
             && ev.payload.Some? && ev == Event(reply.tx, req.uuid, ev.payload, None, ev.payload.value)
             && ev.payload == Some(Changes(OriginTime(TimeKeys(db'.table, reply.tx)), CreatedBy(db'.ids, db.next, reply.tx),
                                           ToTuples(db'.ids, AssertedBy(db'.table, reply.tx)),
                                           ToTuples(db'.ids, RetractedBy(db'.table, reply.tx)))))
  {
    hide Plan, SelectorsDistinct, Install, TimeKeys, OriginTime, CreatedBy, ToTuples, AssertedBy, RetractedBy, Prepare, NewKeys, NewIdentities;
  }

  /** What is answered from the receipts.  A delivery of the record that was committed under the
      event's id is answered with that event's transaction, whether or not the record is still
      there; another record under the id of an event, or the id of any other identity, conflicts. */
  lemma KnownExactly(schema: Schema, r: Db, index: map<Selector, int>, ev: Event, at: int)
    requires Sound(r) && Finds(index, r.ids) && ev.payload.Some? && ev.payload.value.Changes?
    ensures ApplyEvent(schema, r, index, ev, at).1.AlreadyApplied? <==>
      exists prior :: prior in r.events && prior.uuid == ev.uuid && prior.hash == ev.payload.value
    ensures forall prior :: prior in r.events && prior.uuid == ev.uuid && prior.hash == ev.payload.value ==>
      ApplyEvent(schema, r, index, ev, at) == (r, AlreadyApplied(prior.tx, BasisBefore(r.events, prior.tx)))
    ensures (exists id :: id in r.ids && r.ids[id].selector == Eid(ev.uuid))
            && (forall prior :: prior in r.events && prior.uuid == ev.uuid ==> prior.hash != ev.payload.value) ==>
      ApplyEvent(schema, r, index, ev, at) == (r, Failed(Conflict))
  {
    hide Transact, Preallocate, Sound;
    RegisteredEvents(r, index, ev.uuid);
    var req := EventRequest(r.next, index, ev.uuid, ev.payload.value, at);
    if req.Ok? { ForcedTransact(schema, r, req.value); }
    if prior :| prior in r.events && prior.uuid == ev.uuid && prior.hash == ev.payload.value {
      assert Eid(ev.uuid) in index && prior.tx == index[Eid(ev.uuid)];
    }
  }

  /** Only events are registered under the id of an event's transaction. */
  lemma RegisteredEvents(r: Db, index: map<Selector, int>, uuid: Uuid)
    requires Sound(r) && Finds(index, r.ids)
    ensures forall prior :: prior in r.events ==>
      (prior.uuid == uuid <==> Eid(uuid) in index && prior.tx == index[Eid(uuid)])
  {
    hide Sound;
    SoundHas(r);
    forall prior | prior in r.events
      ensures prior.uuid == uuid <==> Eid(uuid) in index && prior.tx == index[Eid(uuid)]
    {
      EventIdentity(r, prior);
    }
  }

  lemma TransactCommits(schema: Schema, db: Db, req: Request, delta: Delta)
    requires Committing(schema, db, req, delta) && req.force && req.guard.None? && req.operation.None?
    requires TxOf(db, req, delta) < MAX_ID
    ensures Transact(schema, db, req) == (Committed(schema, db, req, delta), Applied(TxOf(db, req, delta), Basis(db.events)))
  {
    hide Sound, Resolved, Commit, Plan, SelectorsDistinct;
  }

  /** The origin's step, and what must hold of it for its event to be replicated: it commits a
      transaction whose asserted unique values are free and that deletes no history. */
  ghost predicate Replicable(schema: Schema, o: Db, req: Request) {
    var delta := DeltaOf(schema, o, req);
    && Committing(schema, o, req, delta) && TxOf(o, req, delta) < MAX_ID && SchemaFits(schema, o.next)
    && ValuesFree(schema, LiveOf(o.table), delta) && forall f :: f in delta.retractions ==> f.key.a !in schema.nohistory
  }

  /** The event of a new commit is not known yet. */
  lemma NewEventUnknown(schema: Schema, o: Db, req: Request, delta: Delta, index: map<Selector, int>)
    requires Committing(schema, o, req, delta) && Finds(index, o.ids)
    ensures Eid(req.uuid) !in index
  {
    CommitSelectors(schema, o, req, delta);
    var ids, tx := Committed(schema, o, req, delta).ids, TxOf(o, req, delta);
    forall s | s in index ensures s != Eid(req.uuid) {
      assert index[s] in Upto(ids, o.next);
      assert index[s] in ids && ids[index[s]].selector == s && index[s] != tx;
    }
  }

  lemma EventFollows(schema: Schema, o: Db, r: Db, req: Request, index: map<Selector, int>, at: int)
    requires Replicable(schema, o, req) && Mirrors(o, r) && Sound(r) && Finds(index, r.ids)
    ensures var o' := Committed(schema, o, req, DeltaOf(schema, o, req)); |o'.events| == |o.events| + 1
    ensures var o' := Committed(schema, o, req, DeltaOf(schema, o, req));
      var (r', reply) := ApplyEvent(schema, r, index, o'.events[|o.events|], at);
      reply.Applied? && Mirrors(o', r') && Sound(r')
  {
    var delta := DeltaOf(schema, o, req);
    var o', rq, d := Committed(schema, o, req, delta), ReplicaRequest(schema, o, r, req, delta, at), ReplicaDelta(schema, o, r, req, delta);
    hide Committing, Committed, Mirrors, Sound, Transact, EventRequest, ReplicaDelta, DeltaOf;
    MirrorNext(o, r);
    EventRead(schema, o, r, req, delta, index, at);
    NewEventUnknown(schema, o, req, delta, index);
    CommitParts(schema, o, req, delta);
    ReplicaFollows(schema, o, r, req, delta, at);
    ReplicaIds(schema, o, r, req, delta, at);
    TransactCommits(schema, r, rq, d);
    CommitSound(schema, r, rq, d);
    MirrorLast(o', Committed(schema, r, rq, d));
  }

  lemma MirrorLast(o: Db, r: Db)
    requires Mirrors(o, r)
    ensures |r.events| == |o.events| && (o.events != [] ==> r.events[|r.events| - 1].payload == o.events[|o.events| - 1].payload)
  {
    if o.events != [] { assert SameEvent(o.events[|o.events| - 1], r.events[|o.events| - 1]); }
  }

  /** The states of an origin that takes replicable transactions, and of a replica that applies the
      event of each; `indexes` are the replica's registry lookups. */
  ghost predicate Stream(schema: Schema, os: seq<Db>, rs: seq<Db>, reqs: seq<Request>, indexes: seq<map<Selector, int>>, ats: seq<int>) {
    && |os| == |rs| == |reqs| + 1 && |indexes| == |ats| == |reqs|
    && forall i, j :: 0 <= i < j < |os| && j == i + 1 ==> Link(schema, os[i], os[j], rs[i], rs[j], reqs[i], indexes[i], ats[i])
  }

  ghost predicate Link(schema: Schema, o: Db, o': Db, r: Db, r': Db, req: Request, index: map<Selector, int>, at: int) {
    && Replicable(schema, o, req) && o' == Committed(schema, o, req, DeltaOf(schema, o, req))
    && Finds(index, r.ids)
    && o'.events != [] && r' == ApplyEvent(schema, r, index, o'.events[|o'.events| - 1], at).0
  }

  /** Folding a stream: a replica that starts as a mirror stays one, event after event. */
  lemma {:induction false} StreamFollows(schema: Schema, os: seq<Db>, rs: seq<Db>, reqs: seq<Request>,
                                         indexes: seq<map<Selector, int>>, ats: seq<int>, i: nat)
    requires Stream(schema, os, rs, reqs, indexes, ats) && i < |os|
    requires Mirrors(os[0], rs[0]) && Sound(rs[0])
    ensures i < |rs| && Mirrors(os[i], rs[i]) && Sound(rs[i])
  {
    hide Mirrors, Sound, Replicable, ApplyEvent, Committed, DeltaOf, Finds;
    if i > 0 {
      StreamFollows(schema, os, rs, reqs, indexes, ats, i - 1);
      assert Link(schema, os[i - 1], os[i], rs[i - 1], rs[i], reqs[i - 1], indexes[i - 1], ats[i - 1]);
      EventFollows(schema, os[i - 1], rs[i - 1], reqs[i - 1], indexes[i - 1], ats[i - 1]);
    }
  }

  /** The origin's events are only ever added to. */
  lemma {:induction false} StreamGrows(schema: Schema, os: seq<Db>, rs: seq<Db>, reqs: seq<Request>,
                                       indexes: seq<map<Selector, int>>, ats: seq<int>, i: nat, j: nat)
    requires Stream(schema, os, rs, reqs, indexes, ats) && i <= j < |os|
    ensures os[i].events <= os[j].events
    decreases j
  {
    hide Replicable, ApplyEvent, Committed, DeltaOf, Finds;
    if i < j {
      StreamGrows(schema, os, rs, reqs, indexes, ats, i, j - 1);
      assert Link(schema, os[j - 1], os[j], rs[j - 1], rs[j], reqs[j - 1], indexes[j - 1], ats[j - 1]);
      CommitParts(schema, os[j - 1], reqs[j - 1], DeltaOf(schema, os[j - 1], reqs[j - 1]));
    }
  }

  lemma KnownEvent(schema: Schema, o: Db, r: Db, index: map<Selector, int>, ev: Event, at: int)
    requires Mirrors(o, r) && Sound(r) && Finds(index, r.ids) && ev in o.events && ev.payload.Some? && ev.payload.value.Changes?
    ensures ApplyEvent(schema, r, index, ev, at) == (r, AlreadyApplied(ev.tx, BasisBefore(r.events, ev.tx)))
  {
    hide Transact, EventRequest, Paired, Lasting;
    var k :| 0 <= k < |o.events| && o.events[k] == ev;
    var prior := r.events[k];
    assert SameEvent(o.events[k], prior) && prior in r.events;
    SoundHas(r);
    EventIdentity(r, prior);
    assert index[Eid(ev.uuid)] == ev.tx;
  }

  /** Delivering again is harmless: an event that the stream already carried is answered with its
      own transaction, and the replica does not change. */
  lemma Redelivered(schema: Schema, os: seq<Db>, rs: seq<Db>, reqs: seq<Request>, indexes: seq<map<Selector, int>>,
                    ats: seq<int>, i: nat, j: nat, index: map<Selector, int>, at: int)
    requires Stream(schema, os, rs, reqs, indexes, ats) && Mirrors(os[0], rs[0]) && Sound(rs[0])
    requires 0 < i <= j < |os| && Finds(index, rs[j].ids)
    ensures os[i].events != []
    ensures var ev := os[i].events[|os[i].events| - 1];
      ApplyEvent(schema, rs[j], index, ev, at) == (rs[j], AlreadyApplied(ev.tx, BasisBefore(rs[j].events, ev.tx)))
  {
    hide Replicable, ApplyEvent, Committed, Mirrors, Sound, DeltaOf, Finds;
    StreamFollows(schema, os, rs, reqs, indexes, ats, j);
    StreamFollows(schema, os, rs, reqs, indexes, ats, i - 1);
    StreamGrows(schema, os, rs, reqs, indexes, ats, i, j);
    assert Link(schema, os[i - 1], os[i], rs[i - 1], rs[i], reqs[i - 1], indexes[i - 1], ats[i - 1]);
    LinkRecord(schema, os[i - 1], rs[i - 1], reqs[i - 1], indexes[i - 1], ats[i - 1]);
    KnownEvent(schema, os[j], rs[j], index, os[i].events[|os[i].events| - 1], at);
  }

  lemma LinkRecord(schema: Schema, o: Db, r: Db, req: Request, index: map<Selector, int>, at: int)
    requires Replicable(schema, o, req) && Mirrors(o, r) && Sound(r) && Finds(index, r.ids)
    ensures var o' := Committed(schema, o, req, DeltaOf(schema, o, req));
      && |o'.events| == |o.events| + 1
      && o'.events[|o.events|].payload.Some? && o'.events[|o.events|].payload.value.Changes?
  {
    hide Committing, Committed, DeltaOf, EventRequest;
    MirrorNext(o, r);
    EventRead(schema, o, r, req, DeltaOf(schema, o, req), index, at);
  }

  // ----- what was erased does not come back -----

  /** No step changes which events there are, or their hashes. */
  lemma StepKeepsHashes(schema: Schema, db: Db, step: Step, k: nat)
    requires Sound(db) && Admissible(db, step) && k < |db.events|
    ensures var events := Next(schema, db, step).0.events;
      k < |events| && events[k].tx == db.events[k].tx && events[k].uuid == db.events[k].uuid && events[k].hash == db.events[k].hash
  {
    hide Sound, Transact, Excise, Erase, Committed, RedactedTxs;
    StepCases(schema, db, step);
    var (db', reply) := Next(schema, db, step);
    if reply.Applied? && step.Write? {
      var delta := DeltaOf(schema, db, step.req);
      CommitParts(schema, db, step.req, delta);
      assert db'.events[..|db.events|][k] == db'.events[k];
    } else if reply.Applied? {
      ErasedHash(db, step.ex, k);
    }
  }

  lemma ErasedHash(db: Db, ex: Excision, k: nat)
    requires k < |db.events|
    ensures var events := Erase(db, ex).events;
      k < |events| && events[k].tx == db.events[k].tx && events[k].uuid == db.events[k].uuid && events[k].hash == db.events[k].hash
  {
    hide RedactedTxs, Remaining, Erased;
  }

  lemma {:induction false} RunKeepsHashes(schema: Schema, dbs: seq<Db>, steps: seq<Step>, i: nat, j: nat, k: nat)
    requires IsRun(schema, dbs, steps) && i <= j < |dbs| && k < |dbs[i].events|
    ensures k < |dbs[j].events|
    ensures var was, now := dbs[i].events[k], dbs[j].events[k]; now.tx == was.tx && now.uuid == was.uuid && now.hash == was.hash
  {
    hide *;
    RunLength(schema, dbs, steps);
    if i < j {
      RunKeepsHashes(schema, dbs, steps, i, j - 1, k);
      RunStep(schema, dbs, steps, j - 1);
      StepKeepsHashes(schema, dbs[j - 1], steps[j - 1], k);
    }
  }

  /** Over any run, excisions included: an event that the store once recorded, delivered again at any
      later time, is answered with its own transaction and changes nothing, so that what was erased
      from it in between does not come back. */
  lemma DeliveredAgain(schema: Schema, dbs: seq<Db>, steps: seq<Step>, i: nat, j: nat, ev: Event, index: map<Selector, int>, at: int)
    requires IsRun(schema, dbs, steps) && i <= j < |dbs| && Finds(index, dbs[j].ids)
    requires ev in dbs[i].events && ev.payload.Some? && ev.payload.value.Changes?
    ensures ApplyEvent(schema, dbs[j], index, ev, at) == (dbs[j], AlreadyApplied(ev.tx, BasisBefore(dbs[j].events, ev.tx)))
  {
    hide *;
    var k :| 0 <= k < |dbs[i].events| && dbs[i].events[k] == ev;
    RunSound(schema, dbs, steps, i);
    RunSound(schema, dbs, steps, j);
    SealedIn(dbs[i], ev);
    RunKeepsHashes(schema, dbs, steps, i, j, k);
    KnownExactly(schema, dbs[j], index, ev, at);
    assert dbs[j].events[k] in dbs[j].events;
  }

  lemma SealedIn(db: Db, ev: Event)
    requires Sound(db) && ev in db.events && ev.payload.Some?
    ensures ev.hash == ev.payload.value
  {
    SoundHas(db);
    hide Sound;
  }
}
