/** The store's own inspection, which also closes every restore: the registry and the facts fit
    together, event records and the audit trail hold, and the live facts respect the schema. */
module Doctor {
  import opened Facts
  import opened Planner
  import opened Localization
  import opened Identities
  import opened History
  import opened Store
  import opened Soundness
  import opened Derived
  import opened Exports
  import opened Audit

  // ----- event records -----

  /** Events come in transaction order, each with an id of its own. */
  ghost predicate Enumerated(events: seq<Event>) {
    forall i, j :: 0 <= i < j < |events| ==> events[i].tx < events[j].tx && events[i].uuid != events[j].uuid
  }

  lemma OneMoreEmpty(events: seq<Event>, i: nat, empty: map<Uuid, int>)
    requires Enumerated(events) && i < |events| && events[i].payload.None? && EmptyOf(events[..i], empty)
    ensures EmptyOf(events[..i + 1], empty[events[i].uuid := events[i].tx])
  {
    var ev := events[i];
    assert events[..i + 1] == events[..i] + [ev];
    forall other | other in events[..i] ensures other.uuid != ev.uuid {
      var j :| 0 <= j < i && events[..i][j] == other;
      assert events[j] == other;
    }
  }

  /** Event i is as it should be: empty, or timed like its transaction and, unless it is genesis,
      what its transaction would export again or excused. */
  ghost predicate Reproduced(schema: Schema, db: Db, i: nat)
    requires i < |db.events|
  {
    var ev := db.events[i];
    && TimeOk(db, ev) && Sealed(ev)
    && (i > 0 && ev.payload.Some? && ev.payload.value.Changes? ==>
          && db.events[i - 1].tx < ev.tx
          && (ev.payload.value == RecordOf(db.ids, db.table, db.events[i - 1].tx, ev.tx) || Excused(schema, db.ids, ev.payload.value)))
  }

  ghost predicate MarkersFound(table: seq<Fact>, events: seq<Event>) {
    forall ev :: ev in events && IsRedaction(ev) ==> HasMarker(table, ev.tx)
  }

  ghost predicate Inspected(schema: Schema, db: Db) {
    && Accounted(db.events) && Honest(db.events) && MarkersFound(db.table, db.events)
    && forall i :: 0 <= i < |db.events| ==> Reproduced(schema, db, i)
  }

  /** Does the record speak of an attribute that keeps no history? */
  method MayLoseHistory(schema: Schema, ids: map<int, Identity>, payload: Payload) returns (may: bool)
    requires payload.Changes?
    ensures may <==> Excused(schema, ids, payload)
  {
    var tuples := payload.asserted + payload.retracted;
    for i := 0 to |tuples|
      invariant forall j, a :: 0 <= j < i && a in schema.nohistory && a in ids ==> ids[a].selector != tuples[j].a
    {
      if exists a :: a in schema.nohistory && a in ids && ids[a].selector == tuples[i].a {
        assert tuples[i] in payload.asserted || tuples[i] in payload.retracted;
        return true;
      }
    }
    assert forall t :: t in payload.asserted || t in payload.retracted ==> t in tuples;
    return false;
  }

  /** What is wrong with the record of event i. */
  method RecordProblem(schema: Schema, db: Db, i: nat) returns (problem: Option<Problem>)
    requires Enumerated(db.events) && i < |db.events|
    ensures problem.None? <==> Reproduced(schema, db, i)
  {
    var ev := db.events[i];
    if ev.payload.None? { return None; }
    if ev.payload.value != ev.hash { return Some(BadHash(ev.tx)); }
    if ev.payload.value.at != OriginTime(TimeKeys(db.table, ev.tx)) { return Some(WrongTime(ev.tx)); }
    if ev.payload.value.Redaction? || i == 0 { return None; }
    if ev.payload.value != RecordOf(db.ids, db.table, db.events[i - 1].tx, ev.tx) {
      var may := MayLoseHistory(schema, db.ids, ev.payload.value);
      if !may { return Some(Differs(ev.tx)); }
    }
    return None;
  }

  lemma OneMoreEvent(events: seq<Event>, i: nat, table: seq<Fact>)
    requires i < |events|
    ensures MarkersFound(table, events[..i + 1]) <==>
      MarkersFound(table, events[..i]) && (IsRedaction(events[i]) ==> HasMarker(table, events[i].tx))
  {
    assert events[..i + 1] == events[..i] + [events[i]];
  }

  lemma StillEmpty(events: seq<Event>, i: nat, empty: map<Uuid, int>)
    requires i < |events| && events[i].payload.Some? && EmptyOf(events[..i], empty)
    ensures EmptyOf(events[..i + 1], empty)
  {
    assert events[..i + 1] == events[..i] + [events[i]];
  }

  /** The records gathered so far are the redactions with a marker and the right time. */
  ghost predicate Gathered(table: seq<Fact>, events: seq<Event>, records: seq<Event>, clean: bool) {
    && (forall record :: record in records ==> record in events && IsRedaction(record))
    && (clean ==> forall ev :: ev in events && IsRedaction(ev) ==> ev in records)
  }

  lemma OneMoreGathered(table: seq<Fact>, events: seq<Event>, i: nat, records: seq<Event>, clean: bool)
    requires i < |events| && Gathered(table, events[..i], records, clean)
    ensures IsRedaction(events[i]) ==> Gathered(table, events[..i + 1], records + [events[i]], clean)
    ensures Gathered(table, events[..i + 1], records, clean && !IsRedaction(events[i]))
  {
    assert events[..i + 1] == events[..i] + [events[i]];
  }

  /** The scan of the events: emptied events by id, the redaction records that list each target,
      timestamps and re-exports.  It ends without a problem exactly when all of it is in order. */
  method InspectEvents(schema: Schema, db: Db) returns (problems: seq<Problem>)
    requires Enumerated(db.events)
    ensures problems == [] <==> Inspected(schema, db)
  {
    hide Enumerated, Reproduced, HasMarker, EmptyOf, Gathered, IsRedaction;
    problems := [];
    var empty: map<Uuid, int> := map[];
    var records: seq<Event> := [];
    NothingInspected(db.table);
    assert db.events[..0] == [];
    for i := 0 to |db.events|
      invariant EmptyOf(db.events[..i], empty)
      invariant Gathered(db.table, db.events[..i], records, problems == [])
      invariant problems == [] <==>
        MarkersFound(db.table, db.events[..i]) && forall j :: 0 <= j < i ==> Reproduced(schema, db, j)
    {
      var ev := db.events[i];
      var was := problems;
      OneMoreEvent(db.events, i, db.table);
      OneMoreGathered(db.table, db.events, i, records, problems == []);
      var problem := RecordProblem(schema, db, i);
      if problem.Some? { problems := problems + [problem.value]; }
      assert problems == [] <==> was == [] && Reproduced(schema, db, i);
      if ev.payload.None? {
        OneMoreEmpty(db.events, i, empty);
        NotRedaction(ev);
        empty := empty[ev.uuid := ev.tx];
        GatheredLess(db.table, db.events[..i + 1], records, was == [], problems == []);
      } else {
        StillEmpty(db.events, i, empty);
        if ev.payload.value.Redaction? {
          RedactionIs(ev);
          MarkerIs(db.table, ev.tx);
          if exists f :: f in db.table && f.key.e == ev.tx && f.key.a == ATTR_EXCISED && f.tx == ev.tx && f.rx.None? {
            records := records + [ev];
            GatheredLess(db.table, db.events[..i + 1], records, was == [], problems == []);
          } else {
            problems := problems + [NoMarker(ev.tx)];
            GatheredLess(db.table, db.events[..i + 1], records, false, false);
          }
        } else {
          NotRedaction(ev);
          GatheredLess(db.table, db.events[..i + 1], records, was == [], problems == []);
        }
      }
    }
    assert db.events[..|db.events|] == db.events;
    if problems == [] {
      TrailExactly(db.events, empty, records, db.table);
    }
    var targets := TargetProblems(empty, records);
    var orphans := OrphanProblems(empty, records);
    problems := problems + targets + orphans;
  }

  lemma NothingInspected(table: seq<Fact>)
    ensures EmptyOf([], map[]) && Gathered(table, [], [], true) && MarkersFound(table, [])
  {
  }

  lemma NotRedaction(ev: Event)
    requires ev.payload.None? || ev.payload.value.Changes?
    ensures !IsRedaction(ev)
  {
  }

  lemma RedactionIs(ev: Event)
    requires ev.payload.Some? && ev.payload.value.Redaction?
    ensures IsRedaction(ev)
  {
  }

  lemma MarkerIs(table: seq<Fact>, tx: int)
    ensures HasMarker(table, tx) <==> exists f :: f in table && f.key.e == tx && f.key.a == ATTR_EXCISED && f.tx == tx && f.rx.None?
  {
  }

  lemma GatheredLess(table: seq<Fact>, events: seq<Event>, records: seq<Event>, was: bool, clean: bool)
    requires Gathered(table, events, records, was) && (clean ==> was)
    ensures Gathered(table, events, records, clean)
  {
  }

  lemma TrailExactly(events: seq<Event>, empty: map<Uuid, int>, records: seq<Event>, table: seq<Fact>)
    requires EmptyOf(events, empty) && Gathered(table, events, records, true)
    ensures TargetsEmpty(empty, records) && AllTargeted(empty, records) <==> Honest(events) && Accounted(events)
  {
    if Honest(events) { HonestTargets(events, empty, records); }
    if Accounted(events) { AccountedTargets(events, empty, records); }
    if TargetsEmpty(empty, records) && AllTargeted(empty, records) { ScanShowsTrail(events, empty, records); }
  }

  // ----- the schema -----

  /** Over live rows: cardinality-one slots are used once, and unique values have one owner. */
  ghost predicate Lawful(schema: Schema, rows: seq<Fact>) {
    forall i, j :: 0 <= i < j < |rows| ==> Compatible(schema, rows[i].key, rows[j].key)
  }

  predicate Compatible(schema: Schema, k: Triple, l: Triple) {
    (SameSlot(k, l) ==> k.a in schema.many) && (Rivals(k, l) ==> k.a !in schema.unique)
  }

  lemma LawfulExactly(schema: Schema, rows: seq<Fact>)
    requires LiveRows(rows)
    ensures Lawful(schema, rows) <==> OneValue(schema, Keys(rows)) && OneOwner(schema, Keys(rows))
  {
    if OneValue(schema, Keys(rows)) && OneOwner(schema, Keys(rows)) {
      forall i, j | 0 <= i < j < |rows| ensures Compatible(schema, rows[i].key, rows[j].key) {
        assert rows[i] in rows && rows[j] in rows && rows[i].id != rows[j].id;
        assert rows[i].key in Keys(rows) && rows[j].key in Keys(rows);
      }
    }
    if Lawful(schema, rows) {
      forall k, l | k in Keys(rows) && l in Keys(rows) && k != l ensures Compatible(schema, k, l) {
        var f :| f in rows && f.key == k;
        var g :| g in rows && g.key == l;
        var i :| 0 <= i < |rows| && rows[i] == f;
        var j :| 0 <= j < |rows| && rows[j] == g;
        assert i < j || j < i;
      }
    }
  }

  /** The slots and the owners seen so far, as the inspection notes them. */
  ghost predicate SlotsSeen(rows: seq<Fact>, slots: set<(int, int)>) {
    && (forall f :: f in rows ==> (f.key.e, f.key.a) in slots)
    && (forall s :: s in slots ==> exists f :: f in rows && (f.key.e, f.key.a) == s)
  }

  ghost predicate OwnersSeen(rows: seq<Fact>, owners: map<(int, Value), int>) {
    && (forall f :: f in rows ==> (f.key.a, f.key.v) in owners)
    && (forall o :: o in owners ==> exists f :: f in rows && (f.key.a, f.key.v) == o && f.key.e == owners[o])
  }

  lemma LawfulSnoc(schema: Schema, rows: seq<Fact>, i: nat)
    requires i < |rows|
    ensures Lawful(schema, rows[..i + 1]) <==> Lawful(schema, rows[..i]) && forall f :: f in rows[..i] ==> Compatible(schema, f.key, rows[i].key)
  {
    var front, more := rows[..i], rows[..i + 1];
    if Lawful(schema, more) {
      forall f | f in front ensures Compatible(schema, f.key, rows[i].key) {
        var j :| 0 <= j < i && front[j] == f;
        assert more[j] == f && more[i] == rows[i];
      }
      forall a, b | 0 <= a < b < i ensures Compatible(schema, front[a].key, front[b].key) {
        assert more[a] == front[a] && more[b] == front[b];
      }
    }
    if Lawful(schema, front) && forall f :: f in front ==> Compatible(schema, f.key, rows[i].key) {
      forall a, b | 0 <= a < b <= i ensures Compatible(schema, more[a].key, more[b].key) {
        assert more[a] == front[a] && front[a] in front;
        assert b < i ==> more[b] == front[b];
      }
    }
  }

  lemma SlotTells(schema: Schema, rows: seq<Fact>, slots: set<(int, int)>, k: Triple)
    requires SlotsSeen(rows, slots)
    ensures (k.e, k.a) in slots <==> exists f :: f in rows && SameSlot(f.key, k)
  {
  }

  lemma OwnerTells(schema: Schema, rows: seq<Fact>, owners: map<(int, Value), int>, k: Triple)
    requires OwnersSeen(rows, owners) && Lawful(schema, rows) && k.a in schema.unique
    ensures (k.a, k.v) in owners && owners[(k.a, k.v)] != k.e <==> exists f :: f in rows && Rivals(f.key, k)
  {
    if (k.a, k.v) in owners {
      var g :| g in rows && (g.key.a, g.key.v) == (k.a, k.v) && g.key.e == owners[(k.a, k.v)];
      forall f | f in rows && f.key.a == k.a && f.key.v == k.v ensures f.key.e == g.key.e {
        OneOwnerOf(schema, rows, f, g);
      }
    }
  }

  lemma OneOwnerOf(schema: Schema, rows: seq<Fact>, f: Fact, g: Fact)
    requires Lawful(schema, rows) && f in rows && g in rows && f.key.a == g.key.a && f.key.v == g.key.v && f.key.a in schema.unique
    ensures f.key.e == g.key.e
  {
    var i :| 0 <= i < |rows| && rows[i] == f;
    var j :| 0 <= j < |rows| && rows[j] == g;
    assert i < j ==> Compatible(schema, rows[i].key, rows[j].key);
    assert j < i ==> Compatible(schema, rows[j].key, rows[i].key);
  }

  lemma SeenTells(schema: Schema, rows: seq<Fact>, slots: set<(int, int)>, owners: map<(int, Value), int>, k: Triple)
    requires SlotsSeen(rows, slots) && OwnersSeen(rows, owners) && Lawful(schema, rows)
    ensures (forall f :: f in rows ==> Compatible(schema, f.key, k)) <==>
      && (k.a !in schema.many ==> (k.e, k.a) !in slots)
      && (k.a in schema.unique && (k.a, k.v) in owners ==> owners[(k.a, k.v)] == k.e)
  {
    hide SlotsSeen, OwnersSeen, Lawful;
    SlotTells(schema, rows, slots, k);
    if k.a in schema.unique { OwnerTells(schema, rows, owners, k); }
    assert forall f :: f in rows && SameSlot(f.key, k) ==> f.key.a == k.a;
    if k.a !in schema.many && (k.e, k.a) in slots {
      var f :| f in rows && SameSlot(f.key, k);
      assert !Compatible(schema, f.key, k);
    }
    if k.a in schema.unique && (k.a, k.v) in owners && owners[(k.a, k.v)] != k.e {
      var f :| f in rows && Rivals(f.key, k);
      assert !Compatible(schema, f.key, k);
    }
  }

  lemma MoreSlots(rows: seq<Fact>, f: Fact, slots: set<(int, int)>)
    requires SlotsSeen(rows, slots)
    ensures SlotsSeen(rows + [f], slots + {(f.key.e, f.key.a)})
  {
    var more := rows + [f];
    forall s | s in slots + {(f.key.e, f.key.a)} ensures exists g :: g in more && (g.key.e, g.key.a) == s {
      if s in slots {
        var g :| g in rows && (g.key.e, g.key.a) == s;
        assert g in more;
      } else {
        assert f in more;
      }
    }
  }

  lemma MoreOwners(rows: seq<Fact>, f: Fact, owners: map<(int, Value), int>)
    requires OwnersSeen(rows, owners)
    ensures OwnersSeen(rows + [f], if (f.key.a, f.key.v) in owners then owners else owners[(f.key.a, f.key.v) := f.key.e])
  {
    var more, key := rows + [f], (f.key.a, f.key.v);
    var owners' := if key in owners then owners else owners[key := f.key.e];
    forall o | o in owners' ensures exists g :: g in more && (g.key.a, g.key.v) == o && g.key.e == owners'[o] {
      if o in owners {
        var g :| g in rows && (g.key.a, g.key.v) == o && g.key.e == owners[o];
        assert g in more;
      } else {
        assert f in more;
      }
    }
  }

  /** The global schema check over the live rows. */
  method SchemaHolds(schema: Schema, rows: seq<Fact>) returns (ok: bool)
    ensures ok <==> Lawful(schema, rows)
  {
    hide Lawful, SlotsSeen, OwnersSeen, Compatible;
    var slots: set<(int, int)> := {};
    var owners: map<(int, Value), int> := map[];
    NothingSeen(schema);
    assert rows[..0] == [];
    for i := 0 to |rows|
      invariant Lawful(schema, rows[..i]) && SlotsSeen(rows[..i], slots) && OwnersSeen(rows[..i], owners)
    {
      var k := rows[i].key;
      LawfulSnoc(schema, rows, i);
      SeenTells(schema, rows[..i], slots, owners, k);
      assert rows[..i + 1] == rows[..i] + [rows[i]];
      MoreSlots(rows[..i], rows[i], slots);
      MoreOwners(rows[..i], rows[i], owners);
      if (k.a !in schema.many && (k.e, k.a) in slots) || (k.a in schema.unique && (k.a, k.v) in owners && owners[(k.a, k.v)] != k.e) {
        LawfulPrefix(schema, rows, i + 1);
        return false;
      }
      slots := slots + {(k.e, k.a)};
      owners := if (k.a, k.v) in owners then owners else owners[(k.a, k.v) := k.e];
    }
    assert rows[..|rows|] == rows;
    return true;
  }

  lemma NothingSeen(schema: Schema)
    ensures Lawful(schema, []) && SlotsSeen([], {}) && OwnersSeen([], map[])
  {
  }

  lemma LawfulPrefix(schema: Schema, rows: seq<Fact>, n: nat)
    requires n <= |rows|
    ensures Lawful(schema, rows) ==> Lawful(schema, rows[..n])
  {
    if Lawful(schema, rows) {
      forall i, j | 0 <= i < j < n ensures Compatible(schema, rows[..n][i].key, rows[..n][j].key) {
        assert rows[..n][i] == rows[i] && rows[..n][j] == rows[j];
      }
    }
  }

  // ----- the registry and the facts -----

  predicate FactFits(ids: map<int, Identity>, txs: set<int>, f: Fact) {
    && f.tx in txs && (f.rx.Some? ==> f.rx.value in txs && f.tx < f.rx.value)
    && forall id :: id in Mentions(f.key) ==> id in ids && ids[id].created <= f.tx
  }

  predicate EventFits(ids: map<int, Identity>, ev: Event) {
    ev.tx in ids && ids[ev.tx] == Identity(Eid(ev.uuid), ev.tx)
  }

  /** Identities are positive, the next id follows the largest, each was created by an event, no
      fact is older than what it mentions, and facts and events refer to what exists. */
  predicate Formed(db: Db) {
    && (forall id :: id in db.ids ==> 0 < id < db.next && db.ids[id].created in Txs(db.events))
    && db.next - 1 in db.ids
    && (forall f :: f in db.table ==> FactFits(db.ids, Txs(db.events), f))
    && (forall ev :: ev in db.events ==> EventFits(db.ids, ev))
  }

  /** The store passes the inspection, its derived tables aside. */
  ghost predicate Fit(schema: Schema, db: Db) {
    Formed(db) && Inspected(schema, db) && Lawful(schema, LiveOf(db.table))
  }

  /** The whole inspection. */
  ghost predicate Healthy(schema: Schema, db: Db) {
    Fit(schema, db) && InStep(db)
  }

  /** The queries that count identities out of place, facts that refer to what is not there or is
      younger than they are, and events without an identity of their own. */
  method RegistryHolds(db: Db) returns (ok: bool)
    ensures ok <==> Formed(db)
  {
    if db.next - 1 !in db.ids { return false; }
    if exists id :: id in db.ids && !(0 < id < db.next && IsTx(db.events, db.ids[id].created)) { return false; }
    for i := 0 to |db.table|
      invariant forall j :: 0 <= j < i ==> FactFits(db.ids, Txs(db.events), db.table[j])
    {
      var f := db.table[i];
      assert f in db.table && f.key.e in Mentions(f.key) && f.key.a in Mentions(f.key);
      if !IsTx(db.events, f.tx) || (f.rx.Some? && (!IsTx(db.events, f.rx.value) || f.rx.value <= f.tx)) { return false; }
      if f.key.e !in db.ids || f.key.a !in db.ids || (f.key.v.tag == TAG_REF && f.key.v.cell !in db.ids) {
        assert f.key.v.tag == TAG_REF ==> f.key.v.cell in Mentions(f.key);
        return false;
      }
      if db.ids[f.key.e].created > f.tx || db.ids[f.key.a].created > f.tx
         || (f.key.v.tag == TAG_REF && db.ids[f.key.v.cell].created > f.tx)
      {
        assert f.key.v.tag == TAG_REF ==> f.key.v.cell in Mentions(f.key);
        return false;
      }
    }
    for i := 0 to |db.events|
      invariant forall j :: 0 <= j < i ==> EventFits(db.ids, db.events[j])
    {
      var ev := db.events[i];
      assert ev in db.events;
      if ev.tx !in db.ids || db.ids[ev.tx].selector != Eid(ev.uuid) || db.ids[ev.tx].created != ev.tx { return false; }
    }
    return true;
  }

  /** Is there an event of this transaction? */
  predicate IsTx(events: seq<Event>, tx: int) {
    exists ev :: ev in events && ev.tx == tx
  }

  method Inspect(schema: Schema, db: Db) returns (ok: bool)
    requires Enumerated(db.events)
    ensures ok <==> Healthy(schema, db)
  {
    hide Enumerated, Inspected, Lawful;
    var registered := RegistryHolds(db);
    if !registered { return false; }
    var problems := InspectEvents(schema, db);
    if problems != [] { return false; }
    var lawful := SchemaHolds(schema, LiveOf(db.table));
    if !lawful { return false; }
    return db.fts == RebuiltFts(db.table) && db.blobs == RebuiltBlobs(db.table);
  }
}
