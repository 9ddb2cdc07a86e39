/** Localised planning: the planner does not read all live facts, only those that
    `workingFactsForPlan` loads for the entities, unique values and whole-entity retractions
    of the plan.  This module proves exactly when that changes nothing. */
module Localization {
  import opened Facts
  import opened Planner

  // ----- what is loaded -----

  function LiveOf(table: seq<Fact>): seq<Fact> {
    Keep(table, set f | f in table && f.rx.None?)
  }

  /** A table that respects row-id order and the unique index on live facts. */
  ghost predicate Table(table: seq<Fact>) {
    ById(table) && LiveRows(LiveOf(table))
  }

  /** Some row, live or not, makes `e` a transaction entity. */
  predicate HasReceipt(table: seq<Fact>, e: int) {
    exists f :: f in table && f.key.e == e && f.key.a == ATTR_AT && f.tx == e
  }

  function Entities(ops: seq<Op>): set<int> {
    (set op | op in ops && op.Assert? :: op.key.e) + (set op | op in ops && op.Retract? :: op.e)
  }

  predicate LoadedForValue(schema: Schema, ops: seq<Op>, k: Triple) {
    exists op :: op in ops && op.Assert? && op.key.a in schema.unique && op.key.a == k.a && op.key.v == k.v
  }

  predicate LoadedForRetraction(table: seq<Fact>, ops: seq<Op>, k: Triple) {
    exists op :: op in ops && op.Retract? && op.a.None?
      && (k.e == op.e || (RefersTo(k.v, op.e) && k.e > GENESIS_TX && !HasReceipt(table, k.e)))
  }

  predicate Loaded(schema: Schema, table: seq<Fact>, ops: seq<Op>, k: Triple) {
    LoadedForValue(schema, ops, k) || LoadedForRetraction(table, ops, k) || k.e in Entities(ops)
  }

  function WorkingFacts(schema: Schema, table: seq<Fact>, ops: seq<Op>): seq<Fact> {
    Keep(LiveOf(table), set f | f in table && Loaded(schema, table, ops, f.key))
  }

  lemma WorkingFactsLive(schema: Schema, table: seq<Fact>, ops: seq<Op>)
    requires Table(table)
    ensures LiveRows(WorkingFacts(schema, table, ops))
  {
    KeepById(LiveOf(table), set f | f in table && Loaded(schema, table, ops, f.key));
  }

  // ----- the hypotheses -----

  /** Receipts are never retracted, so a transaction entity always shows its live receipt. */
  ghost predicate ReceiptsLive(table: seq<Fact>) {
    forall e :: HasReceipt(table, e) ==> e in Receipts(LiveOf(table))
  }

  /** Entities that a caller may write: neither system entities nor transaction entities. */
  predicate Writable(rows: seq<Fact>, e: int) {
    e > GENESIS_TX && e !in Receipts(rows)
  }

  /** Plans as the operation validator lets them through.  Entity 0 stands for the transaction
      entity that is being created. */
  ghost predicate UserPlan(rows: seq<Fact>, ops: seq<Op>) {
    forall op :: op in ops ==>
      && (op.Assert? ==> op.key.e == 0 || Writable(rows, op.key.e))
      && (op.Retract? ==> Writable(rows, op.e))
  }

  /** A transaction entity owns a live unique reference to an entity that callers may retract. */
  ghost predicate Hazard(schema: Schema, rows: seq<Fact>) {
    exists f :: f in rows && HazardAt(schema, rows, f.key)
  }

  predicate HazardAt(schema: Schema, rows: seq<Fact>, k: Triple) {
    k.a in schema.unique && k.v.tag == TAG_REF && Writable(rows, k.v.cell) && k.e > GENESIS_TX && k.e in Receipts(rows)
  }

  // ----- simulation of a global run by a local one -----

  ghost predicate Simulates(local: State, global: State, rest: map<Triple, Entry>) {
    && local.working.Keys !! rest.Keys
    && global == local.(working := local.working + rest)
  }

  /** The facts outside the local working set are none of the operation's business. */
  ghost predicate Untouched(schema: Schema, shielded: set<int>, rest: set<Triple>, op: Op) {
    match op
    case Missing => true
    case Retract(_, _, _) => forall k :: k in rest ==> !Hits(op, k, shielded)
    case Assert(key) => forall k :: k in rest ==> k.e != key.e && !(key.a in schema.unique && Rivals(k, key))
  }

  lemma TakeOutSimulates(local: State, global: State, rest: map<Triple, Entry>, taken: set<Triple>)
    requires Simulates(local, global, rest) && taken !! rest.Keys
    ensures Simulates(TakeOut(local, taken), TakeOut(global, taken), rest)
  {
    assert PendingIn(global.working, taken) == PendingIn(local.working, taken);
    assert StoredIn(global.working, taken) == StoredIn(local.working, taken);
    assert global.working - taken == (local.working - taken) + rest;
  }

  lemma StepSimulates(schema: Schema, near: set<int>, far: set<int>, local: State, global: State,
                      rest: map<Triple, Entry>, op: Op, n: nat)
    requires Simulates(local, global, rest) && Untouched(schema, far, rest.Keys, op)
    requires op.Retract? ==> forall k :: k in local.working ==> (Hits(op, k, near) <==> Hits(op, k, far))
    ensures match Step(schema, near, local, op, n)
      case Err(error) => Step(schema, far, global, op, n) == Err(error)
      case Ok(st) => Step(schema, far, global, op, n).Ok? && Simulates(st, Step(schema, far, global, op, n).value, rest)
  {
    match op
    case Missing =>
    case Retract(_, _, _) =>
      assert HitBy(global.working, op, far) == HitBy(local.working, op, near);
      TakeOutSimulates(local, global, rest, HitBy(local.working, op, near));
    case Assert(key) =>
      StepAssertSimulates(schema, local, global, rest, key, n);
  }

  lemma StepAssertSimulates(schema: Schema, local: State, global: State, rest: map<Triple, Entry>, key: Triple, n: nat)
    requires Simulates(local, global, rest)
    requires forall k :: k in rest ==> k.e != key.e && !(key.a in schema.unique && Rivals(k, key))
    ensures match StepAssert(schema, local, key, n)
      case Err(error) => StepAssert(schema, global, key, n) == Err(error)
      case Ok(st) => StepAssert(schema, global, key, n).Ok? && Simulates(st, StepAssert(schema, global, key, n).value, rest)
  {
    if key !in local.working {
      var displaced := Displaced(schema, local.working, key);
      assert Displaced(schema, global.working, key) == displaced;
      assert PendingIn(global.working, displaced) == PendingIn(local.working, displaced);
      TakeOutSimulates(local, global, rest, displaced);
      var near, far := TakeOut(local, displaced), TakeOut(global, displaced);
      if PendingIn(local.working, displaced) == {} {
        if key in near.retracted {
          AddSimulates(near, far, rest, key, Stored(near.retracted[key]));
        } else {
          RivalsSimulate(schema, near.working, rest, key);
          AddSimulates(near, far, rest, key, Pending(n));
        }
      }
    }
  }

  lemma AddSimulates(near: State, far: State, rest: map<Triple, Entry>, key: Triple, entry: Entry)
    requires Simulates(near, far, rest) && key !in rest
    ensures Simulates(near.(working := near.working[key := entry]), far.(working := far.working[key := entry]), rest)
  {
    assert far.working[key := entry] == near.working[key := entry] + rest;
  }

  lemma RivalsSimulate(schema: Schema, working: map<Triple, Entry>, rest: map<Triple, Entry>, key: Triple)
    requires forall k :: k in rest ==> !(key.a in schema.unique && Rivals(k, key))
    ensures key.a in schema.unique ==>
      ((exists k :: k in working && Rivals(k, key)) <==> (exists k :: k in working + rest && Rivals(k, key)))
  {
  }

  // ----- the plan touches only what is loaded -----

  lemma {:induction false} ApplyAllKeys(schema: Schema, shielded: set<int>, facts: set<Triple>, ops: seq<Op>, k: Triple)
    requires k in ApplyAll(schema, shielded, facts, ops)
    ensures k in facts || Assert(k) in ops
  {
    if ops != [] && k !in ApplyAll(schema, shielded, facts, ops[..|ops| - 1]) {
      assert ops[|ops| - 1] == Assert(k);
    } else if ops != [] {
      ApplyAllKeys(schema, shielded, facts, ops[..|ops| - 1], k);
    }
  }

  lemma UnloadedUntouched(schema: Schema, table: seq<Fact>, ops: seq<Op>, rest: set<Triple>, op: Op)
    requires ReceiptsLive(table) && op in ops
    requires forall k :: k in rest ==> !Loaded(schema, table, ops, k)
    ensures Untouched(schema, Receipts(LiveOf(table)), rest, op)
  {
    match op
    case Missing =>
    case Assert(key) =>
      assert key.e in Entities(ops);
      assert forall k :: key.a in schema.unique && Rivals(k, key) ==> LoadedForValue(schema, ops, k);
    case Retract(e, _, _) =>
      assert e in Entities(ops);
      assert forall k :: Hits(op, k, Receipts(LiveOf(table))) && k.e != e ==> LoadedForRetraction(table, ops, k);
  }

  /** A fact of a transaction entity that the plan does not name is loaded only for its value. */
  lemma LoadedOnlyForValue(schema: Schema, table: seq<Fact>, ops: seq<Op>, k: Triple)
    requires k in Keys(WorkingFacts(schema, table, ops)) && k.e !in Entities(ops) && k.e in Receipts(LiveOf(table))
    ensures LoadedForValue(schema, ops, k)
  {
    assert HasReceipt(table, k.e) by {
      var r :| r in LiveOf(table) && r.key.e == r.tx == k.e && r.key.a == ATTR_AT;
    }
    assert forall op :: op in ops && op.Retract? ==> op.e in Entities(ops);
  }

  /** On the local working set, the local and the global list of receipts shield the same facts. */
  lemma ShieldsAgree(schema: Schema, table: seq<Fact>, ops: seq<Op>, op: Op, k: Triple)
    requires UserPlan(LiveOf(table), ops) && !Hazard(schema, LiveOf(table))
    requires op in ops && op.Retract?
    requires k in Keys(WorkingFacts(schema, table, ops)) || Assert(k) in ops
    ensures Hits(op, k, Receipts(WorkingFacts(schema, table, ops))) <==> Hits(op, k, Receipts(LiveOf(table)))
  {
    var near, far := WorkingFacts(schema, table, ops), LiveOf(table);
    if k.e in Entities(ops) {
      forall f | f in far && f.key.e == k.e ensures f in near {
      }
    } else {
      assert Assert(k) !in ops;
      assert exists f :: f in far && f.key == k;
      if k.e in Receipts(far) {
        LoadedOnlyForValue(schema, table, ops, k);
        assert RefersTo(k.v, op.e) && k.e > GENESIS_TX ==> HazardAt(schema, far, k);
      }
    }
  }

  // ----- main results -----

  /** The live facts that are not loaded, as working entries. */
  function Rest(schema: Schema, table: seq<Fact>, ops: seq<Op>): map<Triple, Entry> {
    Start(LiveOf(table)).working - Keys(WorkingFacts(schema, table, ops))
  }

  lemma RestUnloaded(schema: Schema, table: seq<Fact>, ops: seq<Op>)
    requires Table(table)
    ensures forall k :: k in Rest(schema, table, ops) ==> !Loaded(schema, table, ops, k)
  {
    var near, far := WorkingFacts(schema, table, ops), LiveOf(table);
    forall f | f in far && Loaded(schema, table, ops, f.key) ensures f.key in Keys(near) {
      assert f in near;
    }
  }

  lemma StartSimulates(schema: Schema, table: seq<Fact>, ops: seq<Op>)
    requires Table(table) && LiveRows(WorkingFacts(schema, table, ops))
    ensures Simulates(Start(WorkingFacts(schema, table, ops)), Start(LiveOf(table)), Rest(schema, table, ops))
  {
    var near, far := WorkingFacts(schema, table, ops), LiveOf(table);
    StartWithin(near, far);
    SplitMap(Start(near).working, Start(far).working);
    assert Start(near).working.Keys == Keys(near);
  }

  lemma StartWithin(near: seq<Fact>, far: seq<Fact>)
    requires LiveRows(near) && LiveRows(far) && forall f :: f in near ==> f in far
    ensures forall k :: k in Start(near).working ==> k in Start(far).working && Start(far).working[k] == Start(near).working[k]
  {
    StartConsistent(near);
    StartConsistent(far);
    forall k | k in Start(near).working
      ensures k in Start(far).working && Start(far).working[k] == Start(near).working[k]
    {
      var f := RowFor(near, k);
      assert f in far;
    }
  }

  lemma SplitMap(near: map<Triple, Entry>, far: map<Triple, Entry>)
    requires forall k :: k in near ==> k in far && far[k] == near[k]
    ensures far == near + (far - near.Keys)
  {
  }

  lemma WorkingShieldsAgree(schema: Schema, table: seq<Fact>, ops: seq<Op>, i: nat, op: Op)
    requires Table(table) && i <= |ops| && op in ops && op.Retract?
    requires UserPlan(LiveOf(table), ops) && !Hazard(schema, LiveOf(table))
    requires LiveRows(WorkingFacts(schema, table, ops))
    requires Run(schema, Receipts(WorkingFacts(schema, table, ops)), WorkingFacts(schema, table, ops), ops[..i]).Ok?
    ensures var near := WorkingFacts(schema, table, ops);
      forall k :: k in Run(schema, Receipts(near), near, ops[..i]).value.working ==>
        (Hits(op, k, Receipts(near)) <==> Hits(op, k, Receipts(LiveOf(table))))
  {
    var near := WorkingFacts(schema, table, ops);
    RunKeeps(schema, Receipts(near), near, ops[..i]);
    forall k | k in Run(schema, Receipts(near), near, ops[..i]).value.working
      ensures Hits(op, k, Receipts(near)) <==> Hits(op, k, Receipts(LiveOf(table)))
    {
      ApplyAllKeys(schema, Receipts(near), Keys(near), ops[..i], k);
      ShieldsAgree(schema, table, ops, op, k);
    }
  }

  ghost predicate SimulatesResult(local: Result<State>, global: Result<State>, rest: map<Triple, Entry>) {
    match local
    case Err(error) => global == Err(error)
    case Ok(st) => global.Ok? && Simulates(st, global.value, rest)
  }

  lemma {:induction false} RunLocalized(schema: Schema, table: seq<Fact>, ops: seq<Op>, i: nat)
    requires Table(table) && ReceiptsLive(table) && i <= |ops|
    requires UserPlan(LiveOf(table), ops) && !Hazard(schema, LiveOf(table))
    requires LiveRows(WorkingFacts(schema, table, ops))
    ensures var near, far := WorkingFacts(schema, table, ops), LiveOf(table);
      SimulatesResult(Run(schema, Receipts(near), near, ops[..i]), Run(schema, Receipts(far), far, ops[..i]),
                      Rest(schema, table, ops))
  {
    if i == 0 {
      StartSimulates(schema, table, ops);
    } else {
      RunLocalized(schema, table, ops, i - 1);
      assert ops[..i][..i - 1] == ops[..i - 1];
      var near, far := WorkingFacts(schema, table, ops), LiveOf(table);
      var local := Run(schema, Receipts(near), near, ops[..i - 1]);
      if local.Ok? {
        RestUnloaded(schema, table, ops);
        UnloadedUntouched(schema, table, ops, Rest(schema, table, ops).Keys, ops[i - 1]);
        if ops[i - 1].Retract? {
          WorkingShieldsAgree(schema, table, ops, i - 1, ops[i - 1]);
        }
        StepSimulates(schema, Receipts(near), Receipts(far), local.value,
                      Run(schema, Receipts(far), far, ops[..i - 1]).value, Rest(schema, table, ops), ops[i - 1], i - 1);
      }
    }
  }

  /** Planning over the loaded facts and over all live facts give the same delta or error. */
  ghost predicate LocalAgrees(schema: Schema, table: seq<Fact>, ops: seq<Op>) {
    Plan(schema, WorkingFacts(schema, table, ops), ops) == Plan(schema, LiveOf(table), ops)
  }

  lemma LocalPlanIsGlobalPlan(schema: Schema, table: seq<Fact>, ops: seq<Op>)
    requires Table(table) && ReceiptsLive(table)
    requires UserPlan(LiveOf(table), ops) && !Hazard(schema, LiveOf(table))
    ensures LocalAgrees(schema, table, ops)
  {
    WorkingFactsLive(schema, table, ops);
    RunLocalized(schema, table, ops, |ops|);
    assert ops[..|ops|] == ops;
    var near, far := WorkingFacts(schema, table, ops), LiveOf(table);
    var local := Run(schema, Receipts(near), near, ops);
    if local.Ok? {
      RunKeeps(schema, Receipts(near), near, ops);
      var loaded := set f | f in table && Loaded(schema, table, ops, f.key);
      var gone := local.value.retracted.Values;
      assert forall f :: f in gone ==> f in near;
      KeepKeep(far, loaded, gone);
      KeepAgrees(far, loaded * gone, gone);
    }
  }

  /** The plan that tells the two apart: retract the target of the hazardous reference, then
      claim the reference for the target itself. */
  function Probe(k: Triple): seq<Op> {
    [Retract(k.v.cell, None, None), Assert(Triple(k.v.cell, k.a, k.v))]
  }

  lemma ProbeStates(schema: Schema, shielded: set<int>, facts: set<Triple>, k: Triple)
    ensures var ops := Probe(k);
      && ApplyAll(schema, shielded, facts, ops[..0]) == facts
      && ApplyAll(schema, shielded, facts, ops[..1]) == Apply(schema, shielded, facts, ops[0])
  {
    var ops := Probe(k);
    assert ops[..0] == [];
    ApplyAllSnoc(schema, shielded, facts, ops, 0);
  }

  /** Nothing loads the receipt of the owner, so the local planner does not know it is one. */
  lemma ProbeHidesReceipt(schema: Schema, table: seq<Fact>, k: Triple)
    requires HazardAt(schema, LiveOf(table), k) && ATTR_AT !in schema.unique
    ensures k.e !in Receipts(WorkingFacts(schema, table, Probe(k)))
  {
    var ops, far := Probe(k), LiveOf(table);
    assert HasReceipt(table, k.e) by {
      var r :| r in far && r.key.e == r.tx == k.e && r.key.a == ATTR_AT;
    }
    assert Entities(ops) == {k.v.cell};
    forall r | r in far && r.key.e == k.e && r.key.a == ATTR_AT ensures !Loaded(schema, table, ops, r.key) {
      assert !LoadedForValue(schema, ops, r.key);
      assert !LoadedForRetraction(table, ops, r.key);
    }
  }

  lemma ProbeGlobal(schema: Schema, table: seq<Fact>, f: Fact)
    requires Table(table) && f in LiveOf(table) && HazardAt(schema, LiveOf(table), f.key)
    requires OneOwner(schema, Keys(LiveOf(table)))
    ensures Plan(schema, LiveOf(table), Probe(f.key)).Err?
  {
    var rows, ops := LiveOf(table), Probe(f.key);
    var key := ops[1].key;
    ProbeStates(schema, Receipts(rows), Keys(rows), f.key);
    assert f.key in Keys(rows) && Rivals(f.key, key);
    assert f.key in ApplyAll(schema, Receipts(rows), Keys(rows), ops[..1]);
    assert RefusesAt(schema, rows, ops, 1);
    PlanSucceedsExactly(schema, rows, ops);
  }

  /** Locally, the retraction of the probe leaves no fact of the target and no rival. */
  lemma ProbeClears(schema: Schema, near: seq<Fact>, far: seq<Fact>, k: Triple)
    requires k in Keys(far) && Keys(near) <= Keys(far) && OneOwner(schema, Keys(far))
    requires k.a in schema.unique && k.v.tag == TAG_REF && k.e > GENESIS_TX && k.e !in Receipts(near) && k.e != k.v.cell
    ensures forall l :: l in Apply(schema, Receipts(near), Keys(near), Probe(k)[0]) ==>
              l.e != k.v.cell && !Rivals(l, Probe(k)[1].key)
  {
    forall l | l in Keys(near) && Rivals(l, Probe(k)[1].key) ensures l == k {
      assert !Rivals(l, k);
    }
  }

  lemma ProbeLocal(schema: Schema, table: seq<Fact>, f: Fact)
    requires Table(table) && f in LiveOf(table) && HazardAt(schema, LiveOf(table), f.key)
    requires OneOwner(schema, Keys(LiveOf(table))) && ATTR_AT !in schema.unique
    requires LiveRows(WorkingFacts(schema, table, Probe(f.key)))
    ensures Plan(schema, WorkingFacts(schema, table, Probe(f.key)), Probe(f.key)).Ok?
  {
    var near, ops := WorkingFacts(schema, table, Probe(f.key)), Probe(f.key);
    ProbeHidesReceipt(schema, table, f.key);
    ProbeStates(schema, Receipts(near), Keys(near), f.key);
    ProbeClears(schema, near, LiveOf(table), f.key);
    assert !RefusesAt(schema, near, ops, 0) && !RefusesAt(schema, near, ops, 1);
    PlanSucceedsExactly(schema, near, ops);
  }

  lemma HazardRow(schema: Schema, rows: seq<Fact>) returns (f: Fact)
    requires Hazard(schema, rows)
    ensures f in rows && HazardAt(schema, rows, f.key)
  {
    f :| f in rows && HazardAt(schema, rows, f.key);
  }

  lemma ProbeAllowed(schema: Schema, rows: seq<Fact>, k: Triple)
    requires HazardAt(schema, rows, k)
    ensures UserPlan(rows, Probe(k))
  {
  }

  lemma PlansDiffer(schema: Schema, table: seq<Fact>, ops: seq<Op>)
    requires Plan(schema, WorkingFacts(schema, table, ops), ops).Ok? && Plan(schema, LiveOf(table), ops).Err?
    ensures !LocalAgrees(schema, table, ops)
  {
  }

  lemma HazardTells(schema: Schema, table: seq<Fact>) returns (ops: seq<Op>)
    requires Table(table) && OneOwner(schema, Keys(LiveOf(table))) && ATTR_AT !in schema.unique
    requires Hazard(schema, LiveOf(table))
    ensures UserPlan(LiveOf(table), ops) && !LocalAgrees(schema, table, ops)
  {
    hide *;
    var f := HazardRow(schema, LiveOf(table));
    ops := Probe(f.key);
    ProbeAllowed(schema, LiveOf(table), f.key);
    WorkingFactsLive(schema, table, ops);
    ProbeGlobal(schema, table, f);
    ProbeLocal(schema, table, f);
    PlansDiffer(schema, table, ops);
  }

  /** Localised planning, exactly: loading only the touched facts never changes the outcome of
      any plan that callers may submit, if and only if no transaction entity owns a live
      unique reference to a writable entity. */
  lemma LocalityExactly(schema: Schema, table: seq<Fact>)
    requires Table(table) && ReceiptsLive(table)
    requires OneOwner(schema, Keys(LiveOf(table))) && ATTR_AT !in schema.unique
    ensures (forall ops :: UserPlan(LiveOf(table), ops) ==> LocalAgrees(schema, table, ops))
       <==> !Hazard(schema, LiveOf(table))
  {
    if Hazard(schema, LiveOf(table)) {
      var ops := HazardTells(schema, table);
      assert UserPlan(LiveOf(table), ops) && !LocalAgrees(schema, table, ops);
    } else {
      forall ops | UserPlan(LiveOf(table), ops) ensures LocalAgrees(schema, table, ops) {
        LocalPlanIsGlobalPlan(schema, table, ops);
      }
    }
  }

  // ----- the loader -----

  /** Entity batches of one query. */
  const BATCH := 400

  /** What the query of one operation selects. */
  predicate Queried(schema: Schema, table: seq<Fact>, op: Op, k: Triple) {
    match op
    case Missing => false
    case Assert(key) => key.a in schema.unique && key.a == k.a && key.v == k.v
    case Retract(e, a, _) =>
      a.None? && (k.e == e || (RefersTo(k.v, e) && k.e > GENESIS_TX && !HasReceipt(table, k.e)))
  }

  predicate QueriedByAny(schema: Schema, table: seq<Fact>, ops: seq<Op>, k: Triple) {
    exists op :: op in ops && Queried(schema, table, op, k)
  }

  lemma QueriedExactly(schema: Schema, table: seq<Fact>, ops: seq<Op>, k: Triple)
    ensures QueriedByAny(schema, table, ops, k) <==> LoadedForValue(schema, ops, k) || LoadedForRetraction(table, ops, k)
  {
  }

  /** One query per unique value and per whole-entity retraction. */
  method LoadByValueAndRetraction(schema: Schema, table: seq<Fact>, live: seq<Fact>, ops: seq<Op>)
    returns (loaded: set<Fact>, entities: seq<int>)
    ensures forall e :: e in entities <==> e in Entities(ops)
    ensures loaded == set f | f in live && QueriedByAny(schema, table, ops, f.key)
  {
    loaded, entities := {}, [];
    for i := 0 to |ops|
      invariant forall e :: e in entities <==> e in Entities(ops[..i])
      invariant loaded == set f | f in live && QueriedByAny(schema, table, ops[..i], f.key)
    {
      var op := ops[i];
      assert ops[..i + 1] == ops[..i] + [op];
      assert forall o :: o in ops[..i + 1] <==> o in ops[..i] || o == op;
      assert forall k :: QueriedByAny(schema, table, ops[..i + 1], k) <==>
                           QueriedByAny(schema, table, ops[..i], k) || Queried(schema, table, op, k);
      loaded := loaded + set f | f in live && Queried(schema, table, op, f.key);
      if !op.Missing? {
        var e := if op.Assert? then op.key.e else op.e;
        if e !in entities {
          entities := entities + [e];
        }
      }
    }
    assert ops[..|ops|] == ops;
  }

  /** The loader: values and retractions first, then the touched entities in batches; rows
      loaded twice count once, and the result is in id order. */
  method WorkingFactsForPlan(schema: Schema, table: seq<Fact>, ops: seq<Op>) returns (rows: seq<Fact>)
    ensures rows == WorkingFacts(schema, table, ops)
  {
    var live := LiveOf(table);
    var loaded, ordered := LoadByValueAndRetraction(schema, table, live, ops);
    ghost var first := loaded;
    var offset := 0;
    while offset < |ordered|
      invariant 0 <= offset <= |ordered|
      invariant loaded == first + set f | f in live && f.key.e in ordered[..offset]
    {
      var end := if offset + BATCH < |ordered| then offset + BATCH else |ordered|;
      var chunk := ordered[offset..end];
      assert ordered[..end] == ordered[..offset] + chunk;
      loaded := loaded + set f | f in live && f.key.e in chunk;
      offset := end;
    }
    assert ordered[..|ordered|] == ordered;
    rows := Keep(live, loaded);
    forall f | f in live ensures f in loaded <==> Loaded(schema, table, ops, f.key) {
      QueriedExactly(schema, table, ops, f.key);
    }
    KeepAgrees(live, loaded, set f | f in table && Loaded(schema, table, ops, f.key));
  }
}
