/** The transaction planner: an ordered list of operations over the live facts becomes the
    smallest net delta.  The planner keeps four collections up to date while it reads the
    operations; this module states them as a value (`Plan`) and proves that the delta means
    what the operations say one by one.  Module `DiffPlan` holds the loop that mutates them. */
module Planner {
  import opened Facts

  // ----- what the planner starts from -----

  function Keys(rows: seq<Fact>): set<Triple> {
    set f | f in rows :: f.key
  }

  function PlannedKeys(facts: seq<Planned>): set<Triple> {
    set p | p in facts :: p.key
  }

  /** Live rows in id order; the store's unique index on live facts makes their keys distinct. */
  ghost predicate LiveRows(rows: seq<Fact>) {
    && ById(rows)
    && (forall f :: f in rows ==> f.rx.None?)
    && (forall f, g :: f in rows && g in rows && f.key == g.key ==> f == g)
  }

  /** Transaction entities: owners of a timestamp fact asserted by themselves. */
  function Receipts(rows: seq<Fact>): set<int> {
    set f | f in rows && f.key.e == f.tx && f.key.a == ATTR_AT :: f.key.e
  }

  predicate SameSlot(k: Triple, l: Triple) {
    k.e == l.e && k.a == l.a
  }

  /** Two entities own one value of the same attribute. */
  predicate Rivals(k: Triple, l: Triple) {
    k.a == l.a && k.v == l.v && k.e != l.e
  }

  /** Does a retraction take `k` away?  A retraction of a whole entity also takes the
      references to it, except those owned by the system or by a transaction receipt. */
  predicate Hits(op: Op, k: Triple, shielded: set<int>)
    requires op.Retract?
  {
    && (k.e == op.e || (op.a.None? && RefersTo(k.v, op.e) && k.e > GENESIS_TX && k.e !in shielded))
    && (op.a.Some? ==> k.a == op.a.value)
    && (op.v.Some? ==> k.v == op.v.value)
  }

  // ----- the reference meaning: operations one by one on a plain set of triples -----

  function Apply(schema: Schema, shielded: set<int>, facts: set<Triple>, op: Op): set<Triple> {
    match op
    case Missing => facts
    case Retract(_, _, _) => set k | k in facts && !Hits(op, k, shielded)
    case Assert(key) =>
      if key in facts then facts
      else if key.a in schema.many then facts + {key}
      else (set k | k in facts && !SameSlot(k, key)) + {key}
  }

  function ApplyAll(schema: Schema, shielded: set<int>, facts: set<Triple>, ops: seq<Op>): set<Triple> {
    if ops == [] then facts
    else Apply(schema, shielded, ApplyAll(schema, shielded, facts, ops[..|ops| - 1]), ops[|ops| - 1])
  }

  // ----- the planner's own bookkeeping -----

  /** A working fact is either a stored row or an assertion of this plan. */
  datatype Entry = Stored(row: Fact) | Pending(order: nat)

  datatype State = State(
    working: map<Triple, Entry>,
    retracted: map<Triple, Fact>,
    inserted: seq<Planned>,
    canceled: set<nat>)

  /** The row that says `key`; the last one, should there be several. */
  function RowFor(rows: seq<Fact>, key: Triple): (f: Fact)
    requires key in Keys(rows)
    ensures f in rows && f.key == key
  {
    var n := |rows| - 1;
    if rows[n].key == key then rows[n] else RowFor(rows[..n], key)
  }

  function Start(rows: seq<Fact>): State {
    State(map k | k in Keys(rows) :: Stored(RowFor(rows, k)), map[], [], {})
  }

  function StoredIn(working: map<Triple, Entry>, taken: set<Triple>): map<Triple, Fact> {
    map k | k in working && k in taken && working[k].Stored? :: working[k].row
  }

  function PendingIn(working: map<Triple, Entry>, taken: set<Triple>): set<nat> {
    set k | k in working && k in taken && working[k].Pending? :: working[k].order
  }

  /** Takes facts out of the working set: stored rows become retractions, pending assertions
      are canceled. */
  function TakeOut(st: State, taken: set<Triple>): State {
    State(st.working - taken, st.retracted + StoredIn(st.working, taken), st.inserted,
          st.canceled + PendingIn(st.working, taken))
  }

  function HitBy(working: map<Triple, Entry>, op: Op, shielded: set<int>): set<Triple>
    requires op.Retract?
  {
    set k | k in working && Hits(op, k, shielded)
  }

  /** The other values an assertion of a cardinality-one attribute displaces. */
  function Displaced(schema: Schema, working: map<Triple, Entry>, key: Triple): set<Triple> {
    if key.a in schema.many then {} else set k | k in working && SameSlot(k, key)
  }

  function StepAssert(schema: Schema, st: State, key: Triple, order: nat): Result<State> {
    if key in st.working then Ok(st)
    else
      var displaced := Displaced(schema, st.working, key);
      if PendingIn(st.working, displaced) != {} then Err(Conflict)
      else
        var room := TakeOut(st, displaced);
        if key in room.retracted then
          Ok(room.(working := room.working[key := Stored(room.retracted[key])], retracted := room.retracted - {key}))
        else if key.a in schema.unique && exists k :: k in room.working && Rivals(k, key) then
          Err(Conflict)
        else
          Ok(room.(working := room.working[key := Pending(order)], inserted := room.inserted + [Planned(key, order)]))
  }

  function Step(schema: Schema, shielded: set<int>, st: State, op: Op, order: nat): Result<State> {
    match op
    case Missing => Ok(st)
    case Retract(_, _, _) => Ok(TakeOut(st, HitBy(st.working, op, shielded)))
    case Assert(key) => StepAssert(schema, st, key, order)
  }

  function Run(schema: Schema, shielded: set<int>, rows: seq<Fact>, ops: seq<Op>): Result<State> {
    if ops == [] then Ok(Start(rows))
    else
      match Run(schema, shielded, rows, ops[..|ops| - 1])
      case Err(error) => Err(error)
      case Ok(st) => Step(schema, shielded, st, ops[|ops| - 1], |ops| - 1)
  }

  function Finish(rows: seq<Fact>, st: State): Delta {
    Delta(Keep(st.inserted, set p | p in st.inserted && p.order !in st.canceled),
          Keep(rows, st.retracted.Values))
  }

  function Plan(schema: Schema, rows: seq<Fact>, ops: seq<Op>): Result<Delta> {
    match Run(schema, Receipts(rows), rows, ops)
    case Err(error) => Err(error)
    case Ok(st) => Ok(Finish(rows, st))
  }

  // ----- what every step keeps -----

  /** Every live row is either still working or retracted, never both; every pending entry is
      a surviving insertion of a triple that is not live; orders are those of past operations. */
  ghost predicate Consistent(rows: seq<Fact>, st: State, n: nat) {
    && (forall k :: k in st.working && st.working[k].Stored? ==> st.working[k].row in rows && st.working[k].row.key == k)
    && (forall k :: k in st.retracted ==> st.retracted[k] in rows && st.retracted[k].key == k && k !in st.working)
    && (forall f :: f in rows ==> f.key in st.retracted || (f.key in st.working && st.working[f.key] == Stored(f)))
    && (forall k :: k in st.working && st.working[k].Pending? ==>
          Planned(k, st.working[k].order) in st.inserted && st.working[k].order !in st.canceled)
    && (forall p :: p in st.inserted ==>
          p.order in st.canceled || (p.key in st.working && st.working[p.key] == Pending(p.order)))
    && (forall i, j :: 0 <= i < j < |st.inserted| ==> st.inserted[i].order < st.inserted[j].order)
    && (forall p :: p in st.inserted ==> p.order < n)
    && (forall o :: o in st.canceled ==> o < n)
  }

  /** A pending entry on a cardinality-one attribute is alone in its slot. */
  ghost predicate PendingAlone(schema: Schema, working: map<Triple, Entry>) {
    forall k, l :: k in working && l in working && working[k].Pending? && k.a !in schema.many && SameSlot(k, l) ==> k == l
  }

  lemma TakeOutConsistent(rows: seq<Fact>, st: State, taken: set<Triple>, n: nat)
    requires Consistent(rows, st, n)
    ensures Consistent(rows, TakeOut(st, taken), n)
  {
    var st' := TakeOut(st, taken);
    forall k | k in st'.working && st'.working[k].Pending?
      ensures st'.working[k].order !in st'.canceled
    {
      var o := st.working[k].order;
      if o in PendingIn(st.working, taken) {
        var l :| l in st.working && l in taken && st.working[l] == Pending(o);
        SameOrderSameFact(st.inserted, Planned(k, o), Planned(l, o));
      }
    }
  }

  lemma SameOrderSameFact(inserted: seq<Planned>, p: Planned, q: Planned)
    requires forall i, j :: 0 <= i < j < |inserted| ==> inserted[i].order < inserted[j].order
    requires p in inserted && q in inserted && p.order == q.order
    ensures p == q
  {
    var i :| 0 <= i < |inserted| && inserted[i] == p;
    var j :| 0 <= j < |inserted| && inserted[j] == q;
    assert !(i < j) && !(j < i);
  }

  lemma RestoreConsistent(rows: seq<Fact>, st: State, key: Triple, n: nat)
    requires LiveRows(rows) && Consistent(rows, st, n) && key !in st.working && key in st.retracted
    ensures Consistent(rows, State(st.working[key := Stored(st.retracted[key])], st.retracted - {key}, st.inserted, st.canceled), n)
  {
  }

  lemma InsertConsistent(rows: seq<Fact>, st: State, key: Triple, n: nat)
    requires Consistent(rows, st, n) && key !in st.working && key !in st.retracted
    ensures Consistent(rows, State(st.working[key := Pending(n)], st.retracted, st.inserted + [Planned(key, n)], st.canceled), n + 1)
  {
  }

  lemma StepAssertConsistent(schema: Schema, rows: seq<Fact>, st: State, key: Triple, n: nat)
    requires LiveRows(rows) && Consistent(rows, st, n)
    ensures StepAssert(schema, st, key, n).Ok? ==> Consistent(rows, StepAssert(schema, st, key, n).value, n + 1)
  {
    if key !in st.working {
      var displaced := Displaced(schema, st.working, key);
      if PendingIn(st.working, displaced) == {} {
        var room := TakeOut(st, displaced);
        TakeOutConsistent(rows, st, displaced, n);
        assert room.canceled == st.canceled;
        if key in room.retracted {
          RestoreConsistent(rows, room, key, n);
        } else {
          InsertConsistent(rows, room, key, n);
        }
      }
    }
  }

  lemma StepAssertApplies(schema: Schema, shielded: set<int>, st: State, key: Triple, n: nat)
    requires StepAssert(schema, st, key, n).Ok?
    ensures StepAssert(schema, st, key, n).value.working.Keys == Apply(schema, shielded, st.working.Keys, Assert(key))
  {
  }

  lemma StepAssertAlone(schema: Schema, st: State, key: Triple, n: nat)
    requires PendingAlone(schema, st.working) && StepAssert(schema, st, key, n).Ok?
    ensures PendingAlone(schema, StepAssert(schema, st, key, n).value.working)
  {
  }

  lemma StepKeeps(schema: Schema, shielded: set<int>, rows: seq<Fact>, st: State, op: Op, n: nat)
    requires LiveRows(rows) && Consistent(rows, st, n) && PendingAlone(schema, st.working)
    requires Step(schema, shielded, st, op, n).Ok?
    ensures var st' := Step(schema, shielded, st, op, n).value;
      && Consistent(rows, st', n + 1)
      && PendingAlone(schema, st'.working)
      && st'.working.Keys == Apply(schema, shielded, st.working.Keys, op)
  {
    match op
    case Missing =>
    case Retract(_, _, _) =>
      TakeOutConsistent(rows, st, HitBy(st.working, op, shielded), n);
    case Assert(key) =>
      StepAssertConsistent(schema, rows, st, key, n);
      StepAssertAlone(schema, st, key, n);
      StepAssertApplies(schema, shielded, st, key, n);
  }

  lemma StartConsistent(rows: seq<Fact>)
    requires LiveRows(rows)
    ensures Consistent(rows, Start(rows), 0) && Start(rows).working.Keys == Keys(rows)
    ensures forall f :: f in rows ==> Start(rows).working[f.key] == Stored(f)
  {
  }

  lemma {:induction false} RunKeeps(schema: Schema, shielded: set<int>, rows: seq<Fact>, ops: seq<Op>)
    requires LiveRows(rows) && Run(schema, shielded, rows, ops).Ok?
    ensures var st := Run(schema, shielded, rows, ops).value;
      && Consistent(rows, st, |ops|)
      && PendingAlone(schema, st.working)
      && st.working.Keys == ApplyAll(schema, shielded, Keys(rows), ops)
  {
    if ops == [] {
      StartConsistent(rows);
    } else {
      var shorter := ops[..|ops| - 1];
      RunKeeps(schema, shielded, rows, shorter);
      StepKeeps(schema, shielded, rows, Run(schema, shielded, rows, shorter).value, ops[|ops| - 1], |ops| - 1);
    }
  }

  /** The delta read off a consistent state describes its working set. */
  lemma FinishMeans(rows: seq<Fact>, st: State, n: nat)
    requires LiveRows(rows) && Consistent(rows, st, n)
    ensures var d := Finish(rows, st);
      && st.working.Keys == Keys(rows) - Keys(d.retractions) + PlannedKeys(d.assertions)
      && PlannedKeys(d.assertions) !! Keys(rows)
      && (forall k :: k in st.working ==> (k in PlannedKeys(d.assertions) <==> st.working[k].Pending?))
      && (forall f :: f in rows ==> (f in d.retractions <==> f.key in st.retracted))
  {
    var d := Finish(rows, st);
    forall f | f in rows ensures f in d.retractions <==> f.key in st.retracted {
      if f.key in st.retracted {
        assert st.retracted[f.key] == f;
      }
      if f in st.retracted.Values {
        var k :| k in st.retracted && st.retracted[k] == f;
      }
    }
    forall p | p in d.assertions ensures p.key in st.working && st.working[p.key] == Pending(p.order) {
      assert p in st.inserted;
    }
    forall k | k in st.working && st.working[k].Pending?
      ensures k in PlannedKeys(d.assertions)
    {
      assert Planned(k, st.working[k].order) in d.assertions;
    }
    forall f | f in rows && f.key !in st.retracted ensures f.key in Keys(rows) - Keys(d.retractions) {
      assert forall g :: g in d.retractions && g.key == f.key ==> g == f;
    }
  }

  // ----- main results about the delta -----

  /** A delta is net when it retracts only live rows, in id order, and asserts distinct triples
      that are not live, in the order they were asked for. */
  ghost predicate Net(rows: seq<Fact>, d: Delta) {
    && (forall f :: f in d.retractions ==> f in rows)
    && ById(d.retractions)
    && PlannedKeys(d.assertions) !! Keys(rows)
    && (forall i, j :: 0 <= i < j < |d.assertions| ==> d.assertions[i].order < d.assertions[j].order)
    && (forall i, j :: 0 <= i < j < |d.assertions| ==> d.assertions[i].key != d.assertions[j].key)
  }

  lemma FinishNet(rows: seq<Fact>, st: State, n: nat)
    requires LiveRows(rows) && Consistent(rows, st, n)
    ensures Net(rows, Finish(rows, st))
  {
    assert PlannedKeys(Finish(rows, st).assertions) !! Keys(rows) by { FinishMeans(rows, st, n); }
    KeepById(rows, st.retracted.Values);
    FinishDistinct(rows, st, n);
  }

  lemma FinishDistinct(rows: seq<Fact>, st: State, n: nat)
    requires Consistent(rows, st, n)
    ensures var d := Finish(rows, st);
      && (forall i, j :: 0 <= i < j < |d.assertions| ==> d.assertions[i].order < d.assertions[j].order)
      && (forall i, j :: 0 <= i < j < |d.assertions| ==> d.assertions[i].key != d.assertions[j].key)
  {
    var d := Finish(rows, st);
    var rank := (p: Planned) => p.order as int;
    KeepIncreasing(st.inserted, (set p | p in st.inserted && p.order !in st.canceled), rank);
    forall i, j | 0 <= i < j < |d.assertions| ensures d.assertions[i].order < d.assertions[j].order {
      assert rank(d.assertions[i]) < rank(d.assertions[j]);
    }
    forall i, j | 0 <= i < j < |d.assertions| ensures d.assertions[i].key != d.assertions[j].key {
      var p, q := d.assertions[i], d.assertions[j];
      assert p in d.assertions && q in d.assertions;
      assert st.working[p.key] == Pending(p.order) && st.working[q.key] == Pending(q.order);
    }
  }

  function Outcome(rows: seq<Fact>, d: Delta): set<Triple> {
    Keys(rows) - Keys(d.retractions) + PlannedKeys(d.assertions)
  }

  /** Planner refinement: whenever planning succeeds, its delta is net and applying it to the
      live facts gives exactly what the operations give when run one by one on a plain set. */
  lemma PlanRefines(schema: Schema, rows: seq<Fact>, ops: seq<Op>)
    requires LiveRows(rows) && Plan(schema, rows, ops).Ok?
    ensures var d := Plan(schema, rows, ops).value;
      && Net(rows, d)
      && Outcome(rows, d) == ApplyAll(schema, Receipts(rows), Keys(rows), ops)
  {
    RunKeeps(schema, Receipts(rows), rows, ops);
    var st := Run(schema, Receipts(rows), rows, ops).value;
    FinishMeans(rows, st, |ops|);
    FinishNet(rows, st, |ops|);
  }

  // ----- exactly when planning succeeds -----

  /** The plan may not assert `key`: its cardinality-one slot already holds a value asserted by
      the same plan, or it is a new fact whose unique value another entity owns at this point.
      `live` is the set before the plan and `now` the set the earlier operations lead to. */
  ghost predicate Refuses(schema: Schema, live: set<Triple>, now: set<Triple>, key: Triple) {
    && key !in now
    && ((key.a !in schema.many && exists k :: k in now && k !in live && SameSlot(k, key))
        || (key.a in schema.unique && key !in live && exists k :: k in now && Rivals(k, key)))
  }

  ghost predicate RefusesAt(schema: Schema, rows: seq<Fact>, ops: seq<Op>, i: nat)
    requires i < |ops|
  {
    && ops[i].Assert?
    && Refuses(schema, Keys(rows), ApplyAll(schema, Receipts(rows), Keys(rows), ops[..i]), ops[i].key)
  }

  /** The pending entries are exactly the working facts that were not live. */
  lemma PendingIsNew(rows: seq<Fact>, st: State, n: nat)
    requires LiveRows(rows) && Consistent(rows, st, n)
    ensures forall k :: k in st.working ==> (st.working[k].Pending? <==> k !in Keys(rows))
    ensures forall k :: k in Keys(rows) ==> k in st.working || k in st.retracted
    ensures forall k :: k in st.retracted ==> k in Keys(rows)
  {
  }

  lemma StepAssertExactly(schema: Schema, rows: seq<Fact>, st: State, key: Triple, n: nat)
    requires LiveRows(rows) && Consistent(rows, st, n)
    ensures StepAssert(schema, st, key, n).Err? <==> Refuses(schema, Keys(rows), st.working.Keys, key)
    ensures StepAssert(schema, st, key, n).Err? ==> StepAssert(schema, st, key, n).error == Conflict
  {
    PendingIsNew(rows, st, n);
    StepAssertFails(schema, Keys(rows), st, key, n);
  }

  lemma StepAssertFails(schema: Schema, live: set<Triple>, st: State, key: Triple, n: nat)
    requires forall k :: k in st.working ==> (st.working[k].Pending? <==> k !in live)
    requires forall k :: k in live ==> k in st.working || k in st.retracted
    requires forall k :: k in st.retracted ==> k in live
    ensures StepAssert(schema, st, key, n).Err? <==> Refuses(schema, live, st.working.Keys, key)
  {
    if key !in st.working {
      var displaced := Displaced(schema, st.working, key);
      assert forall k :: k in displaced && st.working[k].Pending? ==> st.working[k].order in PendingIn(st.working, displaced);
      if PendingIn(st.working, displaced) != {} {
        var o :| o in PendingIn(st.working, displaced);
        var k :| k in st.working && k in displaced && st.working[k] == Pending(o);
        assert k in st.working.Keys && k !in live && SameSlot(k, key);
      } else {
        assert forall k :: k in st.working && Rivals(k, key) ==> k in st.working - displaced;
      }
    }
  }

  lemma {:induction false} RunExactly(schema: Schema, rows: seq<Fact>, ops: seq<Op>)
    requires LiveRows(rows)
    ensures Run(schema, Receipts(rows), rows, ops).Ok? <==> forall i :: 0 <= i < |ops| ==> !RefusesAt(schema, rows, ops, i)
    ensures Run(schema, Receipts(rows), rows, ops).Err? ==> Run(schema, Receipts(rows), rows, ops).error == Conflict
  {
    if ops != [] {
      var n := |ops| - 1;
      var shorter := ops[..n];
      RunExactly(schema, rows, shorter);
      assert forall i :: 0 <= i < n ==> shorter[..i] == ops[..i];
      assert forall i :: 0 <= i < n ==> (RefusesAt(schema, rows, shorter, i) <==> RefusesAt(schema, rows, ops, i));
      if Run(schema, Receipts(rows), rows, shorter).Ok? {
        RunKeeps(schema, Receipts(rows), rows, shorter);
        var st := Run(schema, Receipts(rows), rows, shorter).value;
        if ops[n].Assert? {
          StepAssertExactly(schema, rows, st, ops[n].key, n);
        }
        assert Run(schema, Receipts(rows), rows, ops).Err? <==> RefusesAt(schema, rows, ops, n);
      } else {
        var i :| 0 <= i < n && RefusesAt(schema, rows, shorter, i);
        assert RefusesAt(schema, rows, ops, i);
      }
    }
  }

  /** Planning succeeds exactly when no operation is refused, judged by the reference meaning
      of the operations before it; the only failure is a conflict. */
  lemma PlanSucceedsExactly(schema: Schema, rows: seq<Fact>, ops: seq<Op>)
    requires LiveRows(rows)
    ensures Plan(schema, rows, ops).Ok? <==> forall i :: 0 <= i < |ops| ==> !RefusesAt(schema, rows, ops, i)
    ensures Plan(schema, rows, ops).Err? ==> Plan(schema, rows, ops).error == Conflict
  {
    RunExactly(schema, rows, ops);
  }

  // ----- cardinality and uniqueness -----

  ghost predicate OneValue(schema: Schema, facts: set<Triple>) {
    forall k, l :: k in facts && l in facts && SameSlot(k, l) && k.a !in schema.many ==> k == l
  }

  ghost predicate OneOwner(schema: Schema, facts: set<Triple>) {
    forall k, l :: k in facts && l in facts && Rivals(k, l) ==> k.a !in schema.unique
  }

  lemma {:induction false} ApplyAllOneValue(schema: Schema, shielded: set<int>, facts: set<Triple>, ops: seq<Op>)
    requires OneValue(schema, facts)
    ensures OneValue(schema, ApplyAll(schema, shielded, facts, ops))
  {
    if ops != [] {
      ApplyAllOneValue(schema, shielded, facts, ops[..|ops| - 1]);
    }
  }

  /** A plan that starts from single-valued slots ends with single-valued slots. */
  lemma PlanOneValue(schema: Schema, rows: seq<Fact>, ops: seq<Op>)
    requires LiveRows(rows) && Plan(schema, rows, ops).Ok? && OneValue(schema, Keys(rows))
    ensures OneValue(schema, Outcome(rows, Plan(schema, rows, ops).value))
  {
    PlanRefines(schema, rows, ops);
    ApplyAllOneValue(schema, Receipts(rows), Keys(rows), ops);
  }

  /** Operation i takes back a unique fact that the plan retracted after another entity has
      taken the value.  The planner restores such a fact without the uniqueness test. */
  ghost predicate Reclaims(schema: Schema, rows: seq<Fact>, ops: seq<Op>, i: nat)
    requires i < |ops|
  {
    && ops[i].Assert?
    && ops[i].key in Keys(rows)
    && ops[i].key.a in schema.unique
    && var now := ApplyAll(schema, Receipts(rows), Keys(rows), ops[..i]);
       ops[i].key !in now && exists k :: k in now && Rivals(k, ops[i].key)
  }

  lemma ApplyOneOwner(schema: Schema, shielded: set<int>, facts: set<Triple>, op: Op)
    requires OneOwner(schema, facts)
    ensures OneOwner(schema, Apply(schema, shielded, facts, op)) <==>
      !(op.Assert? && op.key !in facts && op.key.a in schema.unique && exists k :: k in facts && Rivals(k, op.key))
  {
    var after := Apply(schema, shielded, facts, op);
    if op.Assert? && op.key !in facts && op.key.a in schema.unique && exists k :: k in facts && Rivals(k, op.key) {
      var k :| k in facts && Rivals(k, op.key);
      assert k in after && op.key in after;
    }
  }

  /** Uniqueness, exactly: every intermediate set of a successful plan has one owner per unique
      value if and only if no operation reclaims. */
  lemma {:induction false} UniqueExactly(schema: Schema, rows: seq<Fact>, ops: seq<Op>)
    requires LiveRows(rows) && Plan(schema, rows, ops).Ok? && OneOwner(schema, Keys(rows))
    ensures (forall i :: 0 <= i <= |ops| ==>
               OneOwner(schema, ApplyAll(schema, Receipts(rows), Keys(rows), ops[..i])))
       <==> (forall i :: 0 <= i < |ops| ==> !Reclaims(schema, rows, ops, i))
  {
    PlanSucceedsExactly(schema, rows, ops);
    if forall i :: 0 <= i < |ops| ==> !Reclaims(schema, rows, ops, i) {
      UniqueUntil(schema, rows, ops, |ops|);
    } else {
      var i :| 0 <= i < |ops| && Reclaims(schema, rows, ops, i);
      var now := ApplyAll(schema, Receipts(rows), Keys(rows), ops[..i]);
      ApplyAllSnoc(schema, Receipts(rows), Keys(rows), ops, i);
      if OneOwner(schema, now) {
        ApplyOneOwner(schema, Receipts(rows), now, ops[i]);
        assert !OneOwner(schema, ApplyAll(schema, Receipts(rows), Keys(rows), ops[..i + 1]));
      }
    }
  }

  lemma ApplyAllSnoc(schema: Schema, shielded: set<int>, facts: set<Triple>, ops: seq<Op>, i: nat)
    requires i < |ops|
    ensures ApplyAll(schema, shielded, facts, ops[..i + 1])
         == Apply(schema, shielded, ApplyAll(schema, shielded, facts, ops[..i]), ops[i])
  {
    assert ops[..i + 1][..i] == ops[..i];
  }

  lemma {:induction false} UniqueUntil(schema: Schema, rows: seq<Fact>, ops: seq<Op>, n: nat)
    requires LiveRows(rows) && OneOwner(schema, Keys(rows)) && n <= |ops|
    requires forall i :: 0 <= i < |ops| ==> !RefusesAt(schema, rows, ops, i) && !Reclaims(schema, rows, ops, i)
    ensures forall i :: 0 <= i <= n ==> OneOwner(schema, ApplyAll(schema, Receipts(rows), Keys(rows), ops[..i]))
  {
    if n == 0 {
      assert ops[..0] == [];
    } else {
      UniqueUntil(schema, rows, ops, n - 1);
      var now := ApplyAll(schema, Receipts(rows), Keys(rows), ops[..n - 1]);
      ApplyAllSnoc(schema, Receipts(rows), Keys(rows), ops, n - 1);
      ApplyOneOwner(schema, Receipts(rows), now, ops[n - 1]);
      assert !RefusesAt(schema, rows, ops, n - 1) && !Reclaims(schema, rows, ops, n - 1);
    }
  }

  /** A plan without reclaiming keeps one owner per unique value. */
  lemma PlanOneOwner(schema: Schema, rows: seq<Fact>, ops: seq<Op>)
    requires LiveRows(rows) && Plan(schema, rows, ops).Ok? && OneOwner(schema, Keys(rows))
    requires forall i :: 0 <= i < |ops| ==> !Reclaims(schema, rows, ops, i)
    ensures OneOwner(schema, Outcome(rows, Plan(schema, rows, ops).value))
  {
    PlanRefines(schema, rows, ops);
    UniqueExactly(schema, rows, ops);
    assert ops[..|ops|] == ops;
  }

  /** The excluded run: retract a unique fact, give its value to another entity, take it back.
      Planning succeeds and both entities own the value. */
  lemma ReclaimedValueHasTwoOwners(e1: int, e2: int, u: int, v: Value, id: nat, tx: int)
    requires e1 != e2 && e1 != tx
    ensures
      var schema := Schema({}, {u}, {});
      var one, two := Triple(e1, u, v), Triple(e2, u, v);
      var rows := [Fact(id, one, tx, None)];
      var ops := [Retract(e1, Some(u), Some(v)), Assert(two), Assert(one)];
      && LiveRows(rows)
      && OneOwner(schema, Keys(rows))
      && Plan(schema, rows, ops).Ok?
      && Outcome(rows, Plan(schema, rows, ops).value) == {one, two}
      && !OneOwner(schema, {one, two})
  {
    var schema := Schema({}, {u}, {});
    var one, two := Triple(e1, u, v), Triple(e2, u, v);
    var rows := [Fact(id, one, tx, None)];
    var ops := [Retract(e1, Some(u), Some(v)), Assert(two), Assert(one)];
    assert Keys(rows) == {one} && Receipts(rows) == {};
    assert ops[..0] == [] && ops[..3] == ops;
    ApplyAllSnoc(schema, {}, {one}, ops, 0);
    assert ApplyAll(schema, {}, {one}, ops[..1]) == {};
    ApplyAllSnoc(schema, {}, {one}, ops, 1);
    assert ApplyAll(schema, {}, {one}, ops[..2]) == {two};
    ApplyAllSnoc(schema, {}, {one}, ops, 2);
    assert ApplyAll(schema, {}, {one}, ops[..3]) == {one, two};
    assert !RefusesAt(schema, rows, ops, 0) && !RefusesAt(schema, rows, ops, 1) && !RefusesAt(schema, rows, ops, 2);
    PlanSucceedsExactly(schema, rows, ops);
    PlanRefines(schema, rows, ops);
    assert Rivals(one, two);
  }
}
