/** Event replay: an event carries the net delta of a transaction, and a replica plans it again
    as retractions first, then assertions.  This module proves that replaying a net delta
    plans exactly that delta again, and exactly when a planned delta can be replayed. */
module Replay {
  import opened Facts
  import opened Planner

  function RetractOps(rows: seq<Fact>): seq<Op> {
    seq(|rows|, i requires 0 <= i < |rows| => Retract(rows[i].key.e, Some(rows[i].key.a), Some(rows[i].key.v)))
  }

  function AssertOps(facts: seq<Planned>): seq<Op> {
    seq(|facts|, i requires 0 <= i < |facts| => Assert(facts[i].key))
  }

  /** The operations an event stands for. */
  function ReplayOps(d: Delta): seq<Op> {
    RetractOps(d.retractions) + AssertOps(d.assertions)
  }

  /** The same delta as a replica records it: assertion i is operation |retractions| + i. */
  function Renumbered(d: Delta): Delta {
    d.(assertions := seq(|d.assertions|, i requires 0 <= i < |d.assertions| =>
                           Planned(d.assertions[i].key, |d.retractions| + i)))
  }

  /** No asserted fact shares its cardinality-one slot with another fact of the outcome. */
  ghost predicate SlotsFree(schema: Schema, rows: seq<Fact>, d: Delta) {
    forall k, l :: k in PlannedKeys(d.assertions) && l in Outcome(rows, d) && k.a !in schema.many && SameSlot(k, l) ==> k == l
  }

  /** No asserted fact shares its unique value with another entity of the outcome. */
  ghost predicate ValuesFree(schema: Schema, rows: seq<Fact>, d: Delta) {
    forall k, l :: k in PlannedKeys(d.assertions) && l in Outcome(rows, d) && k.a in schema.unique ==> !Rivals(k, l)
  }

  // ----- the states a replay passes through -----

  /** What a replay holds after all retractions and the first n assertions. */
  function Reached(rows: seq<Fact>, d: Delta, n: nat): set<Triple>
    requires n <= |d.assertions|
  {
    Keys(rows) - Keys(d.retractions) + PlannedKeys(d.assertions[..n])
  }

  lemma ReachedMore(rows: seq<Fact>, d: Delta, n: nat)
    requires Net(rows, d) && n < |d.assertions|
    ensures d.assertions[n].key !in Reached(rows, d, n)
    ensures Reached(rows, d, n + 1) == Reached(rows, d, n) + {d.assertions[n].key}
    ensures Reached(rows, d, n) <= Outcome(rows, d)
    ensures d.assertions[n].key in PlannedKeys(d.assertions)
  {
    var p := d.assertions[n];
    assert p in d.assertions;
    assert d.assertions[..n + 1] == d.assertions[..n] + [p];
    forall q | q in d.assertions[..n] ensures q.key != p.key && q in d.assertions {
    }
  }

  lemma {:induction false} AfterRetractions(schema: Schema, shielded: set<int>, facts: set<Triple>, d: Delta, n: nat)
    requires n <= |d.retractions|
    ensures ApplyAll(schema, shielded, facts, ReplayOps(d)[..n]) == facts - Keys(d.retractions[..n])
  {
    var ops := ReplayOps(d);
    if n == 0 {
      assert ops[..0] == [];
    } else {
      AfterRetractions(schema, shielded, facts, d, n - 1);
      ApplyAllSnoc(schema, shielded, facts, ops, n - 1);
      var op, f := ops[n - 1], d.retractions[n - 1];
      assert d.retractions[..n] == d.retractions[..n - 1] + [f];
      assert forall k :: Hits(op, k, shielded) <==> k == f.key;
    }
  }

  lemma {:induction false} AfterAssertions(schema: Schema, shielded: set<int>, rows: seq<Fact>, d: Delta, n: nat)
    requires Net(rows, d) && SlotsFree(schema, rows, d) && n <= |d.assertions|
    ensures ApplyAll(schema, shielded, Keys(rows), ReplayOps(d)[..|d.retractions| + n]) == Reached(rows, d, n)
  {
    var ops, m := ReplayOps(d), |d.retractions| + n;
    if n == 0 {
      AfterRetractions(schema, shielded, Keys(rows), d, |d.retractions|);
      assert d.retractions[..|d.retractions|] == d.retractions;
    } else {
      AfterAssertions(schema, shielded, rows, d, n - 1);
      ApplyAllSnoc(schema, shielded, Keys(rows), ops, m - 1);
      ReachedMore(rows, d, n - 1);
      AddFree(schema, shielded, rows, d, d.assertions[n - 1].key, Reached(rows, d, n - 1));
    }
  }

  lemma AddFree(schema: Schema, shielded: set<int>, rows: seq<Fact>, d: Delta, key: Triple, now: set<Triple>)
    requires SlotsFree(schema, rows, d) && key in PlannedKeys(d.assertions) && key !in now && now <= Outcome(rows, d)
    ensures Apply(schema, shielded, now, Assert(key)) == now + {key}
  {
  }

  lemma OpsAt(d: Delta)
    ensures forall i :: 0 <= i < |d.retractions| ==> ReplayOps(d)[i].Retract?
    ensures forall n :: 0 <= n < |d.assertions| ==> ReplayOps(d)[|d.retractions| + n] == Assert(d.assertions[n].key)
  {
  }

  /** A replay is refused exactly at an assertion whose unique value is taken. */
  lemma ReplayRefuses(schema: Schema, rows: seq<Fact>, d: Delta, n: nat)
    requires Net(rows, d) && SlotsFree(schema, rows, d) && n < |d.assertions|
    ensures var key, now := d.assertions[n].key, Reached(rows, d, n);
      RefusesAt(schema, rows, ReplayOps(d), |d.retractions| + n) <==>
        (key.a in schema.unique && exists l :: l in now && Rivals(l, key))
  {
    OpsAt(d);
    AfterAssertions(schema, Receipts(rows), rows, d, n);
    var key, now := d.assertions[n].key, Reached(rows, d, n);
    assert RefusesAt(schema, rows, ReplayOps(d), |d.retractions| + n) <==> Refuses(schema, Keys(rows), now, key);
    ReachedMore(rows, d, n);
    FreeRefusal(schema, rows, d, key, now);
  }

  lemma FreeRefusal(schema: Schema, rows: seq<Fact>, d: Delta, key: Triple, now: set<Triple>)
    requires Net(rows, d) && SlotsFree(schema, rows, d)
    requires key in PlannedKeys(d.assertions) && key !in now && now <= Outcome(rows, d)
    ensures Refuses(schema, Keys(rows), now, key) <==> key.a in schema.unique && exists l :: l in now && Rivals(l, key)
  {
  }

  lemma NotRefused(schema: Schema, rows: seq<Fact>, d: Delta, i: nat)
    requires Net(rows, d) && SlotsFree(schema, rows, d) && ValuesFree(schema, rows, d) && i < |ReplayOps(d)|
    ensures !RefusesAt(schema, rows, ReplayOps(d), i)
  {
    OpsAt(d);
    if i >= |d.retractions| {
      var n := i - |d.retractions|;
      ReplayRefuses(schema, rows, d, n);
      ReachedMore(rows, d, n);
      var key := d.assertions[n].key;
      assert forall l :: Rivals(l, key) ==> Rivals(key, l);
    }
  }

  lemma ReplaySucceedsExactly(schema: Schema, rows: seq<Fact>, d: Delta)
    requires LiveRows(rows) && Net(rows, d) && SlotsFree(schema, rows, d)
    ensures Plan(schema, rows, ReplayOps(d)).Ok? <==> ValuesFree(schema, rows, d)
  {
    PlanSucceedsExactly(schema, rows, ReplayOps(d));
    if ValuesFree(schema, rows, d) {
      forall i | 0 <= i < |ReplayOps(d)| ensures !RefusesAt(schema, rows, ReplayOps(d), i) {
        NotRefused(schema, rows, d, i);
      }
    } else {
      var k, l :| k in PlannedKeys(d.assertions) && l in Outcome(rows, d) && k.a in schema.unique && Rivals(k, l);
      var i := RivalStops(schema, rows, d, k, l);
      assert RefusesAt(schema, rows, ReplayOps(d), i);
    }
  }

  lemma AssertedAt(d: Delta, k: Triple) returns (n: nat)
    requires k in PlannedKeys(d.assertions)
    ensures n < |d.assertions| && d.assertions[n].key == k
  {
    var p :| p in d.assertions && p.key == k;
    n :| 0 <= n < |d.assertions| && d.assertions[n] == p;
  }

  lemma RefusedAt(schema: Schema, rows: seq<Fact>, d: Delta, early: Triple, n: nat)
    requires Net(rows, d) && SlotsFree(schema, rows, d) && n < |d.assertions|
    requires early in Reached(rows, d, n) && Rivals(early, d.assertions[n].key) && early.a in schema.unique
    ensures RefusesAt(schema, rows, ReplayOps(d), |d.retractions| + n)
  {
    ReplayRefuses(schema, rows, d, n);
  }

  lemma EarlierReached(rows: seq<Fact>, d: Delta, m: nat, n: nat)
    requires m < n <= |d.assertions|
    ensures d.assertions[m].key in Reached(rows, d, n)
  {
    assert d.assertions[..n][m] == d.assertions[m];
  }

  /** Of two rivals in the outcome, the one asserted later is refused. */
  lemma RivalStops(schema: Schema, rows: seq<Fact>, d: Delta, k: Triple, l: Triple) returns (i: nat)
    requires Net(rows, d) && SlotsFree(schema, rows, d)
    requires k in PlannedKeys(d.assertions) && l in Outcome(rows, d) && k.a in schema.unique && Rivals(k, l)
    ensures i < |d.retractions| + |d.assertions| && RefusesAt(schema, rows, ReplayOps(d), i)
  {
    hide RefusesAt, SlotsFree, Net;
    var m := AssertedAt(d, k);
    if l in PlannedKeys(d.assertions) {
      var n := AssertedAt(d, l);
      if m < n {
        EarlierReached(rows, d, m, n);
        RefusedAt(schema, rows, d, k, n);
        return |d.retractions| + n;
      }
      EarlierReached(rows, d, n, m);
    }
    RefusedAt(schema, rows, d, l, m);
    return |d.retractions| + m;
  }

  // ----- the replayed delta is the delta -----

  lemma {:induction false} RunOrders(schema: Schema, shielded: set<int>, rows: seq<Fact>, ops: seq<Op>)
    requires LiveRows(rows) && Run(schema, shielded, rows, ops).Ok?
    ensures forall p :: p in Run(schema, shielded, rows, ops).value.inserted ==> p.order < |ops| && ops[p.order] == Assert(p.key)
  {
    if ops != [] {
      RunOrders(schema, shielded, rows, ops[..|ops| - 1]);
    }
  }

  /** A net delta is determined by its outcome, up to the orders of its assertions. */
  lemma NetDetermined(rows: seq<Fact>, d: Delta, d': Delta)
    requires LiveRows(rows) && Net(rows, d) && Net(rows, d') && Outcome(rows, d) == Outcome(rows, d')
    ensures d.retractions == d'.retractions && PlannedKeys(d.assertions) == PlannedKeys(d'.assertions)
  {
    forall f | f in rows ensures (f in d.retractions <==> f.key !in Outcome(rows, d)) && (f in d'.retractions <==> f.key !in Outcome(rows, d')) {
      GoneExactly(rows, d, f);
      GoneExactly(rows, d', f);
    }
    ByIdUnique(d.retractions, d'.retractions);
  }

  lemma GoneExactly(rows: seq<Fact>, d: Delta, f: Fact)
    requires LiveRows(rows) && Net(rows, d) && f in rows
    ensures f in d.retractions <==> f.key !in Outcome(rows, d)
  {
    assert forall g :: g in d.retractions && g.key == f.key ==> g == f;
    assert f.key in Keys(rows);
  }

  /** Replay is a fixed point: planning the operations of a net delta whose slots and unique
      values are free plans exactly that delta, in the same order. */
  lemma ReplayFixedPoint(schema: Schema, rows: seq<Fact>, d: Delta)
    requires LiveRows(rows) && Net(rows, d) && SlotsFree(schema, rows, d) && ValuesFree(schema, rows, d)
    ensures Plan(schema, rows, ReplayOps(d)) == Ok(Renumbered(d))
  {
    ReplaySucceedsExactly(schema, rows, d);
    ReplayOutcome(schema, rows, d);
    var d' := Plan(schema, rows, ReplayOps(d)).value;
    NetDetermined(rows, d, d');
    RunOrders(schema, Receipts(rows), rows, ReplayOps(d));
    SameAssertions(d, d'.assertions);
  }

  lemma ReplayOutcome(schema: Schema, rows: seq<Fact>, d: Delta)
    requires LiveRows(rows) && Net(rows, d) && SlotsFree(schema, rows, d) && Plan(schema, rows, ReplayOps(d)).Ok?
    ensures var d' := Plan(schema, rows, ReplayOps(d)).value; Net(rows, d') && Outcome(rows, d') == Outcome(rows, d)
  {
    var ops := ReplayOps(d);
    PlanRefines(schema, rows, ops);
    AfterAssertions(schema, Receipts(rows), rows, d, |d.assertions|);
    assert ops[..|d.retractions| + |d.assertions|] == ops && d.assertions[..|d.assertions|] == d.assertions;
  }

  lemma SameAssertions(d: Delta, list: seq<Planned>)
    requires forall i, j :: 0 <= i < j < |d.assertions| ==> d.assertions[i].key != d.assertions[j].key
    requires forall i, j :: 0 <= i < j < |list| ==> list[i].order < list[j].order
    requires PlannedKeys(list) == PlannedKeys(d.assertions)
    requires forall p :: p in list ==> p.order < |ReplayOps(d)| && ReplayOps(d)[p.order] == Assert(p.key)
    ensures list == Renumbered(d).assertions
  {
    var want := Renumbered(d).assertions;
    forall p | p in list ensures p in want {
      assert p == want[p.order - |d.retractions|];
    }
    forall p | p in want ensures p in list {
      var i :| 0 <= i < |want| && want[i] == p;
      assert d.assertions[i] in d.assertions && p.key in PlannedKeys(list);
      var q :| q in list && q.key == p.key;
      assert d.assertions[q.order - |d.retractions|].key == d.assertions[i].key;
    }
    IncreasingUnique(list, want, (p: Planned) => p.order);
  }

  // ----- which planned deltas can be replayed -----

  lemma PlanSlotsFree(schema: Schema, rows: seq<Fact>, ops: seq<Op>)
    requires LiveRows(rows) && Plan(schema, rows, ops).Ok?
    ensures SlotsFree(schema, rows, Plan(schema, rows, ops).value)
  {
    RunKeeps(schema, Receipts(rows), rows, ops);
    FinishMeans(rows, Run(schema, Receipts(rows), rows, ops).value, |ops|);
  }

  /** Replay of a planned delta, exactly: the replica accepts the event of a successful plan and
      plans the same delta again if and only if no asserted fact shares a unique value with
      another entity of the outcome.  The conflict that remains is the planner's own: a plan
      that reclaims a unique value is accepted at its origin and refused everywhere else. */
  lemma ReplayExactly(schema: Schema, rows: seq<Fact>, ops: seq<Op>)
    requires LiveRows(rows) && Plan(schema, rows, ops).Ok?
    ensures var d := Plan(schema, rows, ops).value;
      && (Plan(schema, rows, ReplayOps(d)).Ok? <==> ValuesFree(schema, rows, d))
      && (ValuesFree(schema, rows, d) ==> Plan(schema, rows, ReplayOps(d)) == Ok(Renumbered(d)))
  {
    var d := Plan(schema, rows, ops).value;
    PlanRefines(schema, rows, ops);
    PlanSlotsFree(schema, rows, ops);
    ReplaySucceedsExactly(schema, rows, d);
    if ValuesFree(schema, rows, d) {
      ReplayFixedPoint(schema, rows, d);
    }
  }

  /** A plan that reclaims nothing can always be replayed. */
  lemma OrdinaryPlansReplay(schema: Schema, rows: seq<Fact>, ops: seq<Op>)
    requires LiveRows(rows) && Plan(schema, rows, ops).Ok? && OneOwner(schema, Keys(rows))
    requires forall i :: 0 <= i < |ops| ==> !Reclaims(schema, rows, ops, i)
    ensures var d := Plan(schema, rows, ops).value; Plan(schema, rows, ReplayOps(d)) == Ok(Renumbered(d))
  {
    PlanOneOwner(schema, rows, ops);
    ReplayExactly(schema, rows, ops);
  }
}
