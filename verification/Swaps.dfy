/** Compare-and-swap: how a transaction with `cas` operations is planned, what its isolation test
    accepts, and exactly when a committed swap leaves its slot holding the replacement. */
module Swaps {
  import opened Facts
  import opened Planner

  /** One entry of a transaction: an ordinary operation, or a swap of the value in the slot (e, a).
      An absent `expected` or `replacement` is the `missing` sentinel. */
  datatype Entry = Plain(op: Op) | Swap(e: int, a: int, expected: Option<Value>, replacement: Option<Value>)

  /** A planned operation, marked when a swap asked for it. */
  datatype Marked = Marked(op: Op, cas: bool)

  /** What the plan holds about swaps: the operations so far and the slots compared. */
  datatype Swapping = Swapping(ops: seq<Marked>, targets: set<(int, int)>)

  function Slot(facts: set<Triple>, e: int, a: int): set<Triple> {
    set k | k in facts && k.e == e && k.a == a
  }

  function Holding(e: int, a: int, v: Option<Value>): set<Triple> {
    if v.None? then {} else {Triple(e, a, v.value)}
  }

  /** The stored rows of a slot, in id order. */
  function Current(rows: seq<Fact>, e: int, a: int): seq<Fact> {
    Keep(rows, set f | f in rows && f.key.e == e && f.key.a == a)
  }

  /** The operations a swap adds: it empties the slot it found occupied, then fills it. */
  function SwapOps(occupied: bool, e: int, a: int, replacement: Option<Value>): seq<Marked> {
    (if occupied then [Marked(Retract(e, Some(a), None), true)] else [])
    + (if replacement.Some? then [Marked(Assert(Triple(e, a, replacement.value)), true)] else [])
  }

  function PlanSwap(schema: Schema, rows: seq<Fact>, st: Swapping, entry: Entry): Result<Swapping>
    requires entry.Swap?
  {
    var current := Current(rows, entry.e, entry.a);
    if entry.a in schema.many then Err(Unsupported)
    else if (entry.e, entry.a) in st.targets then Err(Conflict)
    else if |current| > 1 then Err(Malformed)
    else if entry.expected.None? && current != [] then Err(Conflict)
    else if entry.expected.Some? && (current == [] || current[0].key.v != entry.expected.value) then Err(Conflict)
    else Ok(Swapping(st.ops + SwapOps(current != [], entry.e, entry.a, entry.replacement), st.targets + {(entry.e, entry.a)}))
  }

  function PlanEntry(schema: Schema, rows: seq<Fact>, st: Swapping, entry: Entry): Result<Swapping> {
    match entry
    case Plain(op) => Ok(st.(ops := st.ops + [Marked(op, false)]))
    case Swap(_, _, _, _) => PlanSwap(schema, rows, st, entry)
  }

  function PlanEntries(schema: Schema, rows: seq<Fact>, entries: seq<Entry>): Result<Swapping> {
    if entries == [] then Ok(Swapping([], {}))
    else
      match PlanEntries(schema, rows, entries[..|entries| - 1])
      case Err(error) => Err(error)
      case Ok(st) => PlanEntry(schema, rows, st, entries[|entries| - 1])
  }

  function Bare(ops: seq<Marked>): seq<Op> {
    seq(|ops|, i requires 0 <= i < |ops| => ops[i].op)
  }

  /** The slots an ordinary operation addresses by owner.  A retraction that found nothing to
      retract carries owner 0 and no attribute. */
  predicate Addresses(op: Op, e: int, a: int) {
    match op
    case Assert(key) => key.e == e && key.a == a
    case Retract(owner, attr, _) => owner == e && (attr.None? || attr.value == a)
    case Missing => e == 0
  }

  /** The isolation test: no ordinary operation addresses a compared slot. */
  ghost predicate Isolated(st: Swapping) {
    forall m, t :: m in st.ops && t in st.targets && !m.cas ==> !Addresses(m.op, t.0, t.1)
  }

  // ----- the plan as it is built -----

  class SwapPlan {
    var ops: seq<Marked>
    var targets: set<(int, int)>

    function Value(): Swapping reads this { Swapping(ops, targets) }

    /** What swaps assert, they assert in slots they compared. */
    ghost predicate Valid() reads this {
      forall m :: m in ops && m.cas && m.op.Assert? ==> (m.op.key.e, m.op.key.a) in targets
    }

    constructor ()
      ensures Valid() && Value() == Swapping([], {})
    {
      ops, targets := [], {};
    }

    /** Plans one entry; a failing entry may leave the slot marked as compared, but the whole
        transaction is then given up. */
    method Add(schema: Schema, rows: seq<Fact>, entry: Entry) returns (failure: Option<Error>)
      requires Valid()
      modifies this
      ensures Valid()
      ensures match PlanEntry(schema, rows, old(Value()), entry)
        case Ok(st) => failure == None && Value() == st
        case Err(error) => failure == Some(error) && ops == old(ops)
    {
      if entry.Plain? {
        ops := ops + [Marked(entry.op, false)];
        return None;
      }
      if entry.a in schema.many { return Some(Unsupported); }
      if (entry.e, entry.a) in targets { return Some(Conflict); }
      targets := targets + {(entry.e, entry.a)};
      var current := Current(rows, entry.e, entry.a);
      if |current| > 1 { return Some(Malformed); }
      if entry.expected.None? {
        if current != [] { return Some(Conflict); }
      } else if |current| != 1 || current[0].key.v != entry.expected.value {
        return Some(Conflict);
      }
      if |current| == 1 { ops := ops + [Marked(Retract(entry.e, Some(entry.a), None), true)]; }
      if entry.replacement.Some? {
        ops := ops + [Marked(Assert(Triple(entry.e, entry.a, entry.replacement.value)), true)];
      }
      return None;
    }

    /** Looks for an ordinary operation on a compared slot, assertions first. */
    method ValidateIsolation() returns (ok: bool)
      requires Valid()
      ensures ok <==> Isolated(Value())
    {
      var keys := targets;
      for i := 0 to |ops|
        invariant keys == targets
      {
        if ops[i].op.Assert? && ops[i].cas {
          assert ops[i] in ops;
          keys := keys + {(ops[i].op.key.e, ops[i].op.key.a)};
        }
      }
      for i := 0 to |ops|
        invariant forall j, t :: 0 <= j < i && t in targets && ops[j].op.Assert? && !ops[j].cas ==> !Addresses(ops[j].op, t.0, t.1)
      {
        if ops[i].op.Assert? && !ops[i].cas && (ops[i].op.key.e, ops[i].op.key.a) in keys {
          ghost var t := (ops[i].op.key.e, ops[i].op.key.a);
          assert ops[i] in Value().ops && t in Value().targets && Addresses(ops[i].op, t.0, t.1);
          return false;
        }
      }
      for i := 0 to |ops|
        invariant forall j, t :: 0 <= j < i && t in targets && !ops[j].op.Assert? && !ops[j].cas ==> !Addresses(ops[j].op, t.0, t.1)
      {
        if !ops[i].op.Assert? && !ops[i].cas {
          var owner := if ops[i].op.Missing? then 0 else ops[i].op.e;
          if ops[i].op.Missing? || ops[i].op.a.None? {
            if exists t :: t in keys && t.0 == owner {
              ghost var t :| t in keys && t.0 == owner;
              assert ops[i] in Value().ops && t in Value().targets && Addresses(ops[i].op, t.0, t.1);
              return false;
            }
          } else if (owner, ops[i].op.a.value) in keys {
            ghost var t := (owner, ops[i].op.a.value);
            assert ops[i] in Value().ops && t in Value().targets && Addresses(ops[i].op, t.0, t.1);
            return false;
          }
        }
      }
      return true;
    }
  }

  // ----- the comparison -----

  lemma CurrentIsSlot(rows: seq<Fact>, e: int, a: int)
    ensures Slot(Keys(rows), e, a) == set f | f in Current(rows, e, a) :: f.key
    ensures |Current(rows, e, a)| <= 1 ==>
      Slot(Keys(rows), e, a) == if Current(rows, e, a) == [] then {} else {Current(rows, e, a)[0].key}
  {
    var current := Current(rows, e, a);
    assert forall f :: f in current ==> f.key in Keys(rows);
    forall k | k in Slot(Keys(rows), e, a) ensures exists f :: f in current && f.key == k {
      var f :| f in rows && f.key == k;
      assert f in current;
    }
    if |current| == 1 {
      assert forall f :: f in current ==> f == current[0];
      assert current[0] in current;
    }
  }

  lemma CurrentAtMostOne(schema: Schema, rows: seq<Fact>, e: int, a: int)
    requires LiveRows(rows) && OneValue(schema, Keys(rows)) && a !in schema.many
    ensures |Current(rows, e, a)| <= 1
  {
    var current := Current(rows, e, a);
    KeepById(rows, set f | f in rows && f.key.e == e && f.key.a == a);
    if |current| > 1 {
      assert current[0] in current && current[1] in current;
      assert current[0].key in Keys(rows) && current[1].key in Keys(rows) && SameSlot(current[0].key, current[1].key);
      assert false;
    }
  }

  /** Over single-valued slots a swap is planned exactly when its slot holds what it expects, the
      attribute is cardinality-one, and the slot was not compared before. */
  lemma ComparesExactly(schema: Schema, rows: seq<Fact>, st: Swapping, entry: Entry)
    requires entry.Swap? && LiveRows(rows) && OneValue(schema, Keys(rows))
    ensures PlanSwap(schema, rows, st, entry).Ok? <==>
      && entry.a !in schema.many && (entry.e, entry.a) !in st.targets
      && Slot(Keys(rows), entry.e, entry.a) == Holding(entry.e, entry.a, entry.expected)
    ensures entry.a !in schema.many && PlanSwap(schema, rows, st, entry).Err? ==> PlanSwap(schema, rows, st, entry).error == Conflict
  {
    var current := Current(rows, entry.e, entry.a);
    CurrentIsSlot(rows, entry.e, entry.a);
    if entry.a !in schema.many { CurrentAtMostOne(schema, rows, entry.e, entry.a); }
    if current != [] {
      assert current[0] in current;
      assert current[0].key in Slot(Keys(rows), entry.e, entry.a);
    }
  }

  // ----- what planned entries look like -----

  function Ops(rows: seq<Fact>, entry: Entry): seq<Marked> {
    match entry
    case Plain(op) => [Marked(op, false)]
    case Swap(e, a, _, replacement) => SwapOps(Current(rows, e, a) != [], e, a, replacement)
  }

  /** Entry i is planned as its own operations, after those of the entries before it; its slot is
      a target from then on and no other entry compares it. */
  lemma {:induction false} PlanPrefix(schema: Schema, rows: seq<Fact>, entries: seq<Entry>, i: nat)
    requires i < |entries| && PlanEntries(schema, rows, entries).Ok?
    ensures PlanEntries(schema, rows, entries[..i]).Ok?
    ensures PlanEntries(schema, rows, entries[..i + 1]) == PlanEntry(schema, rows, PlanEntries(schema, rows, entries[..i]).value, entries[i])
    ensures PlanEntries(schema, rows, entries[..i + 1]).Ok?
    ensures PlanEntries(schema, rows, entries[..i + 1]).value.ops == PlanEntries(schema, rows, entries[..i]).value.ops + Ops(rows, entries[i])
    ensures PlanEntries(schema, rows, entries[..i + 1]).value.targets <= PlanEntries(schema, rows, entries).value.targets
    ensures forall m :: m in Ops(rows, entries[i]) ==> m in PlanEntries(schema, rows, entries).value.ops
    decreases |entries|
  {
    var n := |entries| - 1;
    if i < n {
      PlanPrefix(schema, rows, entries[..n], i);
      assert entries[..n][..i] == entries[..i] && entries[..n][..i + 1] == entries[..i + 1];
    } else {
      assert entries[..n + 1] == entries;
    }
  }

  lemma {:induction false} TargetsAre(schema: Schema, rows: seq<Fact>, entries: seq<Entry>, t: (int, int))
    requires PlanEntries(schema, rows, entries).Ok?
    ensures t in PlanEntries(schema, rows, entries).value.targets <==>
      exists i :: 0 <= i < |entries| && entries[i].Swap? && (entries[i].e, entries[i].a) == t
  {
    if entries != [] {
      var n := |entries| - 1;
      TargetsAre(schema, rows, entries[..n], t);
      assert forall i :: 0 <= i < n ==> entries[..n][i] == entries[i];
    }
  }

  lemma SwapsApart(schema: Schema, rows: seq<Fact>, entries: seq<Entry>, i: nat, j: nat)
    requires i < j < |entries| && entries[i].Swap? && entries[j].Swap? && PlanEntries(schema, rows, entries).Ok?
    ensures (entries[i].e, entries[i].a) != (entries[j].e, entries[j].a)
  {
    PlanPrefix(schema, rows, entries, j);
    assert entries[..j][i] == entries[i];
    TargetsAre(schema, rows, entries[..j], (entries[i].e, entries[i].a));
  }

  /** Entry j does not address the slot that entry i swaps. */
  lemma OthersElsewhere(schema: Schema, rows: seq<Fact>, entries: seq<Entry>, i: nat, j: nat, m: Marked)
    requires i < |entries| && j < |entries| && i != j && entries[i].Swap?
    requires PlanEntries(schema, rows, entries).Ok? && Isolated(PlanEntries(schema, rows, entries).value)
    requires m in Ops(rows, entries[j])
    ensures !Addresses(m.op, entries[i].e, entries[i].a)
  {
    hide PlanEntries, PlanEntry;
    PlanPrefix(schema, rows, entries, j);
    TargetsAre(schema, rows, entries, (entries[i].e, entries[i].a));
    if entries[j].Swap? {
      if i < j { SwapsApart(schema, rows, entries, i, j); } else { SwapsApart(schema, rows, entries, j, i); }
    } else {
      assert !m.cas && m in PlanEntries(schema, rows, entries).value.ops;
    }
  }

  // ----- how a slot moves -----

  /** A retraction of a whole entity that takes the reference `k` to it along. */
  predicate Sweeps(op: Op, k: Triple, shielded: set<int>) {
    op.Retract? && op.a.None? && RefersTo(k.v, op.e) && k.e > GENESIS_TX && k.e !in shielded && (op.v.Some? ==> k.v == op.v.value)
  }

  lemma ElsewhereSweeps(schema: Schema, shielded: set<int>, facts: set<Triple>, op: Op, e: int, a: int)
    requires !Addresses(op, e, a)
    ensures Slot(Apply(schema, shielded, facts, op), e, a) == set k | k in Slot(facts, e, a) && !Sweeps(op, k, shielded)
  {
  }

  lemma {:induction false} ApplyAllConcat(schema: Schema, shielded: set<int>, facts: set<Triple>, s: seq<Op>, t: seq<Op>)
    ensures ApplyAll(schema, shielded, facts, s + t) == ApplyAll(schema, shielded, ApplyAll(schema, shielded, facts, s), t)
  {
    if t == [] {
      assert s + t == s;
    } else {
      var n := |t| - 1;
      assert (s + t)[..|s + t| - 1] == s + t[..n];
      ApplyAllConcat(schema, shielded, facts, s, t[..n]);
    }
  }

  /** The facts that the first n entries lead to. */
  function After(schema: Schema, rows: seq<Fact>, entries: seq<Entry>, n: nat): set<Triple>
    requires n <= |entries| && PlanEntries(schema, rows, entries[..n]).Ok?
  {
    ApplyAll(schema, Receipts(rows), Keys(rows), Bare(PlanEntries(schema, rows, entries[..n]).value.ops))
  }

  lemma AfterNext(schema: Schema, rows: seq<Fact>, entries: seq<Entry>, n: nat)
    requires n < |entries| && PlanEntries(schema, rows, entries).Ok?
    ensures PlanEntries(schema, rows, entries[..n]).Ok? && PlanEntries(schema, rows, entries[..n + 1]).Ok?
    ensures After(schema, rows, entries, n + 1)
      == ApplyAll(schema, Receipts(rows), After(schema, rows, entries, n), Bare(Ops(rows, entries[n])))
  {
    PlanPrefix(schema, rows, entries, n);
    var before, own := PlanEntries(schema, rows, entries[..n]).value.ops, Ops(rows, entries[n]);
    assert Bare(before + own) == Bare(before) + Bare(own);
    ApplyAllConcat(schema, Receipts(rows), Keys(rows), Bare(before), Bare(own));
  }

  lemma ApplyOne(schema: Schema, shielded: set<int>, facts: set<Triple>, op: Op)
    ensures ApplyAll(schema, shielded, facts, [op]) == Apply(schema, shielded, facts, op)
  {
    assert [op][..0] == [];
  }

  lemma ApplyTwo(schema: Schema, shielded: set<int>, facts: set<Triple>, one: Op, two: Op)
    ensures ApplyAll(schema, shielded, facts, [one, two]) == Apply(schema, shielded, Apply(schema, shielded, facts, one), two)
  {
    assert [one, two][..1] == [one];
    ApplyOne(schema, shielded, facts, one);
  }

  /** Whatever a slot holds before its swap, after it the slot holds the replacement, provided an
      occupied slot was seen occupied. */
  lemma OwnSwap(schema: Schema, shielded: set<int>, facts: set<Triple>, occupied: bool, e: int, a: int, replacement: Option<Value>)
    requires a !in schema.many && (!occupied ==> Slot(facts, e, a) == {})
    ensures Slot(ApplyAll(schema, shielded, facts, Bare(SwapOps(occupied, e, a, replacement))), e, a) == Holding(e, a, replacement)
  {
    var ops := Bare(SwapOps(occupied, e, a, replacement));
    var clear := Retract(e, Some(a), None);
    assert Slot(Apply(schema, shielded, facts, clear), e, a) == {};
    if replacement.None? {
      assert ops == if occupied then [clear] else [];
      ApplyOne(schema, shielded, facts, clear);
    } else {
      var fill := Assert(Triple(e, a, replacement.value));
      assert ops == if occupied then [clear, fill] else [fill];
      ApplyTwo(schema, shielded, facts, clear, fill);
      ApplyOne(schema, shielded, facts, fill);
      var base := if occupied then Apply(schema, shielded, facts, clear) else facts;
      assert Slot(base, e, a) == {};
      FillSlot(schema, shielded, base, Triple(e, a, replacement.value));
    }
  }

  lemma FillSlot(schema: Schema, shielded: set<int>, facts: set<Triple>, key: Triple)
    requires Slot(facts, key.e, key.a) == {} && key.a !in schema.many
    ensures Slot(Apply(schema, shielded, facts, Assert(key)), key.e, key.a) == {key}
  {
    assert key !in facts by { assert key in facts ==> key in Slot(facts, key.e, key.a); }
  }

  lemma {:induction false} Untouched(schema: Schema, shielded: set<int>, facts: set<Triple>, ops: seq<Op>, e: int, a: int)
    requires forall op :: op in ops ==> !Addresses(op, e, a) && !(op.Retract? && op.a.None?)
    ensures Slot(ApplyAll(schema, shielded, facts, ops), e, a) == Slot(facts, e, a)
  {
    if ops != [] {
      var n := |ops| - 1;
      Untouched(schema, shielded, facts, ops[..n], e, a);
      assert ops[n] in ops;
      ElsewhereSweeps(schema, shielded, ApplyAll(schema, shielded, facts, ops[..n]), ops[n], e, a);
    }
  }

  /** Another entry only sweeps the slot of swap i. */
  lemma OtherEntry(schema: Schema, rows: seq<Fact>, entries: seq<Entry>, i: nat, j: nat)
    requires i < |entries| && j < |entries| && i != j && entries[i].Swap?
    requires PlanEntries(schema, rows, entries).Ok? && Isolated(PlanEntries(schema, rows, entries).value)
    ensures PlanEntries(schema, rows, entries[..j]).Ok? && PlanEntries(schema, rows, entries[..j + 1]).Ok?
    ensures var e, a, shielded := entries[i].e, entries[i].a, Receipts(rows);
      Slot(After(schema, rows, entries, j + 1), e, a)
      == set k | k in Slot(After(schema, rows, entries, j), e, a) && !(entries[j].Plain? && Sweeps(entries[j].op, k, shielded))
  {
    hide After, PlanEntries, Isolated, Apply, ApplyAll, Addresses, Current, Receipts;
    AfterNext(schema, rows, entries, j);
    var e, a, shielded, own := entries[i].e, entries[i].a, Receipts(rows), Ops(rows, entries[j]);
    var now := After(schema, rows, entries, j);
    forall m | m in own ensures !Addresses(m.op, e, a) {
      OthersElsewhere(schema, rows, entries, i, j, m);
    }
    if entries[j].Plain? {
      assert own[0] in own && Bare(own) == [entries[j].op];
      ApplyOne(schema, shielded, now, entries[j].op);
      ElsewhereSweeps(schema, shielded, now, entries[j].op, e, a);
    } else {
      forall op | op in Bare(own) ensures !Addresses(op, e, a) && !(op.Retract? && op.a.None?) {
        var x :| 0 <= x < |own| && own[x].op == op;
        assert own[x] in own;
      }
      Untouched(schema, shielded, now, Bare(own), e, a);
    }
  }

  /** Before its swap a slot can only lose what was stored in it. */
  lemma {:induction false} SlotBefore(schema: Schema, rows: seq<Fact>, entries: seq<Entry>, i: nat, n: nat)
    requires n <= i < |entries| && entries[i].Swap?
    requires PlanEntries(schema, rows, entries).Ok? && Isolated(PlanEntries(schema, rows, entries).value)
    ensures PlanEntries(schema, rows, entries[..n]).Ok?
    ensures Slot(After(schema, rows, entries, n), entries[i].e, entries[i].a) <= Slot(Keys(rows), entries[i].e, entries[i].a)
  {
    if n == 0 {
      assert entries[..0] == [];
    } else {
      SlotBefore(schema, rows, entries, i, n - 1);
      OtherEntry(schema, rows, entries, i, n - 1);
    }
  }

  /** Some entry after i and before n retracts the entity that replacement i refers to. */
  ghost predicate Swept(rows: seq<Fact>, entries: seq<Entry>, i: nat, n: nat)
    requires i < n <= |entries| && entries[i].Swap?
  {
    && entries[i].replacement.Some?
    && exists j :: i < j < n && entries[j].Plain?
         && Sweeps(entries[j].op, Triple(entries[i].e, entries[i].a, entries[i].replacement.value), Receipts(rows))
  }

  lemma {:induction false} SlotAfter(schema: Schema, rows: seq<Fact>, entries: seq<Entry>, i: nat, n: nat)
    requires i < n <= |entries| && entries[i].Swap?
    requires PlanEntries(schema, rows, entries).Ok? && Isolated(PlanEntries(schema, rows, entries).value)
    ensures PlanEntries(schema, rows, entries[..n]).Ok?
    ensures Slot(After(schema, rows, entries, n), entries[i].e, entries[i].a)
      == if Swept(rows, entries, i, n) then {} else Holding(entries[i].e, entries[i].a, entries[i].replacement)
  {
    hide After, PlanEntries, Isolated, Apply, Sweeps, ApplyAll;
    var e, a := entries[i].e, entries[i].a;
    if n == i + 1 {
      SlotBefore(schema, rows, entries, i, i);
      AfterNext(schema, rows, entries, i);
      PlanPrefix(schema, rows, entries, i);
      CurrentIsSlot(rows, e, a);
      OwnSwap(schema, Receipts(rows), After(schema, rows, entries, i), Current(rows, e, a) != [], e, a, entries[i].replacement);
    } else {
      SlotAfter(schema, rows, entries, i, n - 1);
      OtherEntry(schema, rows, entries, i, n - 1);
      SweptNext(rows, entries, i, n);
    }
  }

  lemma SweptNext(rows: seq<Fact>, entries: seq<Entry>, i: nat, n: nat)
    requires i + 1 < n <= |entries| && entries[i].Swap?
    ensures Swept(rows, entries, i, n) <==> (Swept(rows, entries, i, n - 1)
      || (entries[i].replacement.Some? && entries[n - 1].Plain?
          && Sweeps(entries[n - 1].op, Triple(entries[i].e, entries[i].a, entries[i].replacement.value), Receipts(rows))))
  {
  }

  // ----- main results -----

  /** A committed transaction compared and swapped: its slot held what was expected before, and
      holds exactly the replacement after if and only if no later entry of the transaction retracts
      the entity that the replacement refers to; otherwise the slot ends empty. */
  lemma SwapsExactly(schema: Schema, rows: seq<Fact>, entries: seq<Entry>, i: nat, delta: Delta)
    requires LiveRows(rows) && OneValue(schema, Keys(rows)) && i < |entries| && entries[i].Swap?
    requires PlanEntries(schema, rows, entries).Ok? && Isolated(PlanEntries(schema, rows, entries).value)
    requires Plan(schema, rows, Bare(PlanEntries(schema, rows, entries).value.ops)) == Ok(delta)
    ensures Slot(Keys(rows), entries[i].e, entries[i].a) == Holding(entries[i].e, entries[i].a, entries[i].expected)
    ensures Slot(Outcome(rows, delta), entries[i].e, entries[i].a) == Holding(entries[i].e, entries[i].a, entries[i].replacement)
       <==> !Swept(rows, entries, i, |entries|)
    ensures Swept(rows, entries, i, |entries|) ==> Slot(Outcome(rows, delta), entries[i].e, entries[i].a) == {}
  {
    PlanPrefix(schema, rows, entries, i);
    ComparesExactly(schema, rows, PlanEntries(schema, rows, entries[..i]).value, entries[i]);
    SlotAfter(schema, rows, entries, i, |entries|);
    assert entries[..|entries|] == entries;
    PlanRefines(schema, rows, Bare(PlanEntries(schema, rows, entries).value.ops));
  }

  /** Two transactions that compare one slot with the same value: if the first commits, unswept,
      with a different replacement, the second is refused with a conflict. */
  lemma SecondSwapLoses(schema: Schema, rows: seq<Fact>, entries: seq<Entry>, i: nat, delta: Delta, rows': seq<Fact>, st: Swapping, entry: Entry)
    requires LiveRows(rows) && OneValue(schema, Keys(rows)) && i < |entries| && entries[i].Swap?
    requires PlanEntries(schema, rows, entries).Ok? && Isolated(PlanEntries(schema, rows, entries).value)
    requires Plan(schema, rows, Bare(PlanEntries(schema, rows, entries).value.ops)) == Ok(delta)
    requires LiveRows(rows') && Keys(rows') == Outcome(rows, delta)
    requires entry.Swap? && entry.e == entries[i].e && entry.a == entries[i].a && entry.expected == entries[i].expected
    requires !Swept(rows, entries, i, |entries|) && entries[i].replacement != entries[i].expected
    ensures PlanSwap(schema, rows', st, entry) == Err(Conflict)
  {
    SwapsExactly(schema, rows, entries, i, delta);
    PlanOneValue(schema, rows, Bare(PlanEntries(schema, rows, entries).value.ops));
    ComparesExactly(schema, rows', st, entry);
    PlanPrefix(schema, rows, entries, i);
    var e, a := entry.e, entry.a;
    assert entries[i].expected.Some? ==> Triple(e, a, entries[i].expected.value) in Holding(e, a, entries[i].expected);
    assert entries[i].replacement.Some? ==> Triple(e, a, entries[i].replacement.value) in Holding(e, a, entries[i].replacement);
  }

  /** The excluded run: a swap fills an empty slot with a reference to x and the same transaction
      then retracts x.  Both are accepted, and the slot ends empty, so the swap can be won again. */
  lemma SweptSwapVanishes(e: int, a: int, x: int)
    requires e > GENESIS_TX && x != e && x != 0 && e != 0
    ensures
      var schema, v := Schema({}, {}, {}), Value(TAG_REF, x);
      var entries := [Swap(e, a, None, Some(v)), Plain(Retract(x, None, None))];
      && PlanEntries(schema, [], entries).Ok? && Isolated(PlanEntries(schema, [], entries).value)
      && Plan(schema, [], Bare(PlanEntries(schema, [], entries).value.ops)).Ok?
      && Slot(Outcome([], Plan(schema, [], Bare(PlanEntries(schema, [], entries).value.ops)).value), e, a) == {}
  {
    var schema, v := Schema({}, {}, {}), Value(TAG_REF, x);
    var entries := [Swap(e, a, None, Some(v)), Plain(Retract(x, None, None))];
    assert entries[..1] == [entries[0]] && [entries[0]][..0] == [];
    assert PlanEntries(schema, [], []) == Ok(Swapping([], {}));
    assert Current([], e, a) == [];
    assert PlanEntries(schema, [], [entries[0]]) == PlanEntry(schema, [], Swapping([], {}), entries[0]);
    var st := PlanEntries(schema, [], entries).value;
    var fill, sweep := Assert(Triple(e, a, v)), Retract(x, None, None);
    assert st == Swapping([Marked(fill, true), Marked(sweep, false)], {(e, a)});
    var ops := Bare(st.ops);
    assert ops == [fill, sweep] && ops[..0] == [];
    assert !RefusesAt(schema, [], ops, 0) && !RefusesAt(schema, [], ops, 1);
    PlanSucceedsExactly(schema, [], ops);
    assert Sweeps(entries[1].op, Triple(e, a, v), Receipts([]));
    assert Swept([], entries, 0, 2);
    SwapsExactly(schema, [], entries, 0, Plan(schema, [], ops).value);
  }
}
